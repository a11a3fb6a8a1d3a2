/** A repository whose `skills` is a symbolic link to a directory of the machine
    that installs it: the installation succeeds, with the files found there
    (crates/bitrouter-skills/src/install.rs, crates/bitrouter-skills/src/frontmatter.rs). */
module LinkEscape {
  import opened Wrappers
  import opened Strings
  import opened FileTree
  import opened LinkTrace
  import Frontmatter
  import SkillInstall

  /** The repository: nothing but a link to `out`. */
  function LinkedTree(out: Path): Files {
    map[[] := Dir, ["skills"] := Symlink(Link(true, 0, out))]
  }

  lemma {:induction false} LinkedTreeClosed(out: Path)
    ensures Closed(LinkedTree(out)) && IsDir(LinkedTree(out), [])
  {
    assert ["skills"][..0] == [];
  }

  /** The directory that the link points to: one skill, in `x`. */
  ghost predicate OneSkill(m: Files, out: Path, x: string, text: string) {
    && IsDir(m, out) && out + ["SKILL.md"] !in m
    && out + [x] in m && out + [x] + ["SKILL.md"] in m && m[out + [x] + ["SKILL.md"]] == File(text)
  }

  /** The repository has been cloned into `temp`, away from `out`. */
  ghost predicate Cloned(m: Files, now: Files, temp: Path, out: Path) {
    && Closed(now) && IsDir(now, temp) && Holds(now, temp, InTemp(LinkedTree(out)))
    && Apart(out, temp) && SkillInstall.SameTree(m, now, out)
  }

  lemma {:induction false} RepositoryCloned(fs: FileSystem, m: Files, made: Files, now: Files, temp: Path, out: Path)
    requires OnlyAt(m, made, temp) && SkillInstall.EmptyTemp(made, temp)
    requires Closed(now) && OnlyAt(made, now, temp + ["repo"]) && Apart(out, temp)
    requires SkillInstall.Fetched(fs, made, now, SkillInstall.FromGit(LinkedTree(out), None), temp + ["repo"])
    ensures Cloned(m, now, temp, out)
  {
    CloneHolds(fs, made, now, SkillInstall.FromGit(LinkedTree(out), None), temp);
    SkillInstall.OnlyAtParent(made, now, temp, "repo");
    SkillInstall.OnlyAtTrans(m, made, now, temp);
    SkillInstall.OnlyAtKeeps(m, now, temp, out);
  }

  /** The link leads out, whatever is looked up behind it. */
  lemma {:induction false} ThroughTheLink(out: Path, rest: Path)
    ensures Reached(InTemp(LinkedTree(out)), ["repo", "skills"] + rest) == Outside(true, 0, out + rest, LINK_LIMIT - 1)
  {
    var u, names := InTemp(LinkedTree(out)), ["repo", "skills"] + rest;
    InTempAt(LinkedTree(out), ["repo"]);
    InTempAt(LinkedTree(out), ["repo", "skills"]);
    assert ["repo", "skills"][1..] == ["skills"];
    assert names[1..] == ["skills"] + rest && names[1..][1..] == rest;
    assert [] + [names[0]] == ["repo"] && ["repo"] + [names[1..][0]] == ["repo", "skills"];
    assert Trace(u, [], names, LINK_LIMIT) == Trace(u, ["repo"], names[1..], LINK_LIMIT);
  }

  lemma {:induction false} NotInTheTree(out: Path, name: string, rest: Path)
    requires name != "skills"
    ensures Reached(InTemp(LinkedTree(out)), ["repo", name] + rest) == Nowhere
    ensures Reached(InTemp(LinkedTree(out)), ["repo"]) == Within(["repo"]) && IsDir(InTemp(LinkedTree(out)), ["repo"])
  {
    var u, names := InTemp(LinkedTree(out)), ["repo", name] + rest;
    InTempAt(LinkedTree(out), ["repo"]);
    InTempAt(LinkedTree(out), ["repo", name]);
    assert ["repo", name][1..] == [name];
    assert names[1..] == [name] + rest;
    assert [] + [names[0]] == ["repo"] && ["repo"] + [names[1..][0]] == ["repo", name];
    assert Trace(u, [], names, LINK_LIMIT) == Trace(u, ["repo"], names[1..], LINK_LIMIT);
    assert Trace(u, [], ["repo"], LINK_LIMIT) == Trace(u, ["repo"], [], LINK_LIMIT);
  }

  lemma {:induction false} Spelled(temp: Path, name: string, rest: Path)
    ensures temp + (["repo", name] + rest) == temp + ["repo"] + [name] + rest
  {
  }

  lemma {:induction false} BehindTheLink(m: Files, now: Files, temp: Path, out: Path, rest: Path)
    requires Cloned(m, now, temp, out)
    ensures Real(now, temp + ["repo"] + ["skills"] + rest) == Walk(now, [], out + rest, LINK_LIMIT - 1)
  {
    Spelled(temp, "skills", rest);
    ThroughTheLink(out, rest);
    LookupInTemp(now, temp, InTemp(LinkedTree(out)), ["repo", "skills"] + rest);
  }

  /** What is behind the link is found. */
  lemma {:induction false} FoundBehind(m: Files, now: Files, temp: Path, out: Path, rest: Path)
    requires Cloned(m, now, temp, out) && out + rest in m && !m[out + rest].Symlink?
    ensures Real(now, temp + ["repo"] + ["skills"] + rest) == Some(out + rest)
    ensures out + rest in now && now[out + rest] == m[out + rest]
  {
    assert out <= out + rest && SkillInstall.SameEntry(m, now, out + rest);
    BehindTheLink(m, now, temp, out, rest);
    EmptyFirst(out + rest);
    WalkStraight(now, [], out + rest, LINK_LIMIT - 1);
  }

  lemma {:induction false} MissingBehind(m: Files, now: Files, temp: Path, out: Path, name: string)
    requires Cloned(m, now, temp, out) && IsDir(m, out) && out + [name] !in m
    ensures Real(now, temp + ["repo"] + ["skills"] + [name]) == None
  {
    assert out <= out && SkillInstall.SameEntry(m, now, out);
    assert out <= out + [name] && SkillInstall.SameEntry(m, now, out + [name]);
    BehindTheLink(m, now, temp, out, [name]);
    EmptyFirst(out);
    WalkThrough(now, [], out, [name], LINK_LIMIT - 1);
  }

  /** Nothing else of the clone leads anywhere. */
  lemma {:induction false} NothingElse(m: Files, now: Files, temp: Path, out: Path, name: string, rest: Path)
    requires Cloned(m, now, temp, out) && name != "skills"
    ensures Real(now, temp + ["repo"]) == Some(temp + ["repo"]) && IsDir(now, temp + ["repo"])
    ensures Real(now, temp + ["repo"] + [name] + rest) == None
  {
    var u := InTemp(LinkedTree(out));
    NotInTheTree(out, name, rest);
    Spelled(temp, name, rest);
    LookupInTemp(now, temp, u, ["repo"]);
    LookupInTemp(now, temp, u, ["repo", name] + rest);
    HoldsAt(now, temp, u, ["repo"]);
  }

  lemma {:induction false} ClaudeSkills(clone: Path)
    ensures clone + [".claude"] + ["skills"] == clone + [".claude", "skills"]
    ensures clone + [".claude"] + ["skills", "SKILL.md"] == clone + [".claude", "skills"] + ["SKILL.md"]
  {
  }

  /** The directories searched: below the link, those of the machine. */
  lemma {:induction false} SearchesHere(m: Files, now: Files, temp: Path, out: Path, x: string,
                                        list: Frontmatter.Listing, dir: Path)
    requires Cloned(m, now, temp, out) && IsDir(m, out)
    requires list(out) == [x] && list(temp + ["repo"]) == ["skills"]
    ensures var clone := temp + ["repo"];
            dir in Frontmatter.SearchDirs(now, list, Frontmatter.SearchRoots(clone)) <==>
            || dir == clone || dir == clone + ["skills"]
            || dir == clone + ["skills"] + [x] || dir == clone + [".claude", "skills"]
  {
    var clone := temp + ["repo"];
    AppendNothing(out);
    AppendNothing(clone + ["skills"]);
    FoundBehind(m, now, temp, out, []);
    NothingElse(m, now, temp, out, ".claude", ["skills"]);
    ClaudeSkills(clone);
    SearchesIn(now, list, clone, out, x, dir);
  }

  lemma {:induction false} SearchesIn(now: Files, list: Frontmatter.Listing, clone: Path, out: Path, x: string,
                                      dir: Path)
    requires Real(now, clone) == Some(clone) && IsDir(now, clone) && list(clone) == ["skills"]
    requires Real(now, clone + ["skills"]) == Some(out) && IsDir(now, out) && list(out) == [x]
    requires Real(now, clone + [".claude", "skills"]) == None
    ensures dir in Frontmatter.SearchDirs(now, list, Frontmatter.SearchRoots(clone)) <==>
            || dir == clone || dir == clone + ["skills"]
            || dir == clone + ["skills"] + [x] || dir == clone + [".claude", "skills"]
  {
    var roots := Frontmatter.SearchRoots(clone);
    assert roots[..0] == [] && roots[..3] == roots;
    Frontmatter.NextSearchRoot(now, list, roots, 0);
    Frontmatter.NextSearchRoot(now, list, roots, 1);
    Frontmatter.NextSearchRoot(now, list, roots, 2);
    assert Frontmatter.InBase(now, list, clone) == [clone + ["skills"]];
    assert Frontmatter.InBase(now, list, clone + ["skills"]) == [clone + ["skills"] + [x]];
  }

  /** Where the search of the clone finds a skill: behind the link only. */
  lemma {:induction false} OnlyForeign(m: Files, now: Files, temp: Path, out: Path, x: string, text: string,
                                       yaml: Frontmatter.Yaml, list: Frontmatter.Listing, name: string,
                                       f: Frontmatter.Found)
    requires Cloned(m, now, temp, out) && Closed(m) && OneSkill(m, out, x, text)
    requires Frontmatter.Block(text).Some? && yaml(Frontmatter.Block(text).value) == Some(name)
    requires list(out) == [x] && list(temp + ["repo"]) == ["skills"]
    ensures f in Frontmatter.Discovered(now, yaml, list, temp + ["repo"]) <==>
            f == Frontmatter.Found(temp + ["repo"] + ["skills"] + [x], name)
  {
    var clone := temp + ["repo"];
    SearchesHere(m, now, temp, out, x, list, f.dir);
    Frontmatter.SkillsOfExactly(now, yaml, Frontmatter.SearchDirs(now, list, Frontmatter.SearchRoots(clone)));
    NothingElse(m, now, temp, out, "SKILL.md", []);
    AppendNothing(clone + ["SKILL.md"]);
    NothingElse(m, now, temp, out, ".claude", ["skills", "SKILL.md"]);
    ClaudeSkills(clone);
    MissingBehind(m, now, temp, out, "SKILL.md");
    FoundBehind(m, now, temp, out, [x] + ["SKILL.md"]) by {
      Assoc(out, [x], ["SKILL.md"]);
    }
    Assoc(clone + ["skills"], [x], ["SKILL.md"]);
    Assoc(out, [x], ["SKILL.md"]);
  }

  lemma {:induction false} ChosenForeign(m: Files, now: Files, temp: Path, out: Path, x: string, text: string,
                                         yaml: Frontmatter.Yaml, list: Frontmatter.Listing, name: string)
    requires Cloned(m, now, temp, out) && Closed(m) && OneSkill(m, out, x, text)
    requires Frontmatter.Block(text).Some? && yaml(Frontmatter.Block(text).value) == Some(name)
    requires list(out) == [x] && list(temp + ["repo"]) == ["skills"]
    ensures SkillInstall.Chosen(now, SkillInstall.FromGit(LinkedTree(out), None), temp + ["repo"], None, yaml, list)
            == Ok(Frontmatter.Found(temp + ["repo"] + ["skills"] + [x], name))
  {
    var all := Frontmatter.Discovered(now, yaml, list, temp + ["repo"]);
    var it := Frontmatter.Found(temp + ["repo"] + ["skills"] + [x], name);
    OnlyForeign(m, now, temp, out, x, text, yaml, list, name, it);
    Frontmatter.SkillsOfExactly(now, yaml, Frontmatter.SearchDirs(now, list, Frontmatter.SearchRoots(temp + ["repo"])));
    forall k | 0 <= k < |all| ensures all[k] == it {
      OnlyForeign(m, now, temp, out, x, text, yaml, list, name, all[k]);
    }
    JustOne(all, it);
    ChosenAlone(now, temp, out, yaml, list, it);
  }

  lemma {:induction false} ChosenAlone(now: Files, temp: Path, out: Path, yaml: Frontmatter.Yaml,
                                       list: Frontmatter.Listing, it: Frontmatter.Found)
    requires Frontmatter.Discovered(now, yaml, list, temp + ["repo"]) == [it]
    ensures SkillInstall.Chosen(now, SkillInstall.FromGit(LinkedTree(out), None), temp + ["repo"], None, yaml, list) ==
            Ok(it)
  {
  }

  lemma {:induction false} JustOne(all: seq<Frontmatter.Found>, it: Frontmatter.Found)
    requires it in all && forall k :: 0 <= k < |all| ==> all[k] == it
    requires forall i, j :: 0 <= i < j < |all| ==> all[i].dir != all[j].dir
    ensures all == [it]
  {
    if |all| > 1 {
      TwoDiffer(all);
    }
  }

  lemma {:induction false} TwoDiffer(all: seq<Frontmatter.Found>)
    requires |all| > 1
    requires forall i, j :: 0 <= i < j < |all| ==> all[i].dir != all[j].dir
    ensures all[0] != all[1]
  {
  }

  /** The place behind the link is where the copy reads. */
  lemma {:induction false} ReadsForeign(m: Files, now: Files, temp: Path, out: Path, x: string, text: string,
                                        staging: Path)
    requires Cloned(m, now, temp, out) && Closed(m) && OneSkill(m, out, x, text)
    requires Apart(out, staging) && Apart(temp, staging)
    ensures var dir := temp + ["repo"] + ["skills"] + [x];
            && ReadsApart(Without(now, staging), dir, staging)
            && SkillInstall.Source(now, dir, staging) == Some(out + [x])
  {
    ClearedCloned(m, now, temp, out, staging);
    SkillIsDir(m, out, x, text);
    FoundBehind(m, Without(now, staging), temp, out, [x]);
    SkillInstall.ChildOutside(out, x, staging);
  }

  /** The clone leaves the directory behind the link as it is. */
  lemma {:induction false} ForeignKept(m: Files, now: Files, readable: Path -> bool, out: Path, x: string,
                                       staging: Path, limit: nat)
    requires SkillInstall.SameTree(m, now, out)
    ensures forall r :: CopiedAt(now, readable, out + [x], r) == CopiedAt(m, readable, out + [x], r)
    ensures Fits(m, out + [x], staging, limit) ==> Fits(now, out + [x], staging, limit)
  {
    SubTree(m, now, out, x);
    SkillInstall.SameTreeSameCopy(m, now, readable, out + [x]);
    if Fits(m, out + [x], staging, limit) {
      SkillInstall.SameFits(m, now, out + [x], staging, limit);
    }
  }

  lemma {:induction false} SkillIsDir(m: Files, out: Path, x: string, text: string)
    requires Closed(m) && OneSkill(m, out, x, text)
    ensures IsDir(m, out + [x])
  {
    Opening(out + [x], ["SKILL.md"]);
    PathIsDir(m, out + [x] + ["SKILL.md"], |out + [x]|);
  }

  lemma {:induction false} SubTree(m: Files, now: Files, out: Path, x: string)
    requires SkillInstall.SameTree(m, now, out)
    ensures SkillInstall.SameTree(m, now, out + [x])
  {
    forall p | out + [x] <= p ensures SkillInstall.SameEntry(m, now, p) {
      BelowSnoc(out, x, p);
    }
  }

  lemma {:induction false} ClearedCloned(m: Files, now: Files, temp: Path, out: Path, staging: Path)
    requires Cloned(m, now, temp, out) && Apart(out, staging) && Apart(temp, staging)
    ensures Cloned(m, Without(now, staging), temp, out)
  {
    var rest, u := Without(now, staging), InTemp(LinkedTree(out));
    WithoutClosed(now, staging);
    SkillInstall.WithoutKeeps(now, staging, out);
    SkillInstall.TreeTrans(m, now, rest, out);
    SkillInstall.WithoutKeeps(now, staging, temp);
    SkillInstall.SameTreeAt(now, rest, temp);
    assert temp <= temp && SkillInstall.SameEntry(now, rest, temp);
    forall r ensures At(rest, temp, r) == if r in u then Some(u[r]) else None {
      assert At(rest, temp, r) == At(now, temp, r);
    }
  }

  lemma {:induction false} UnblockedChild(m: Files, root: Path, name: string)
    requires Unblocked(m, root) && (root + [name] in m ==> IsDir(m, root + [name]))
    ensures Unblocked(m, root + [name])
  {
    var dest := root + [name];
    forall k | 0 <= k <= |dest| && dest[..k] in m ensures m[dest[..k]].Dir? {
      assert dest[..k] == if k <= |root| then root[..k] else dest;
    }
  }

  /** An absent destination, or a directory that may be replaced, is no obstacle. */
  lemma {:induction false} FreeToPlace(m: Files, dest: Path, overwrite: bool)
    requires Closed(m) && dest != [] && Unblocked(m, dest) && (dest in m ==> overwrite && IsDir(m, dest))
    ensures SkillInstall.PlaceVerdict(m, dest, overwrite).Ok?
  {
    ExistsUnlessLink(m, dest);
  }

  /** The clone does not get in the way. */
  lemma {:induction false} StillFree(m: Files, fetched: Files, temp: Path, root: Path, name: string, overwrite: bool)
    requires Closed(fetched) && OnlyAt(m, fetched, temp) && Apart(temp, root) && Unblocked(m, root)
    requires root + [name] in m ==> overwrite && IsDir(m, root + [name])
    ensures SkillInstall.PlaceVerdict(fetched, root + [name], overwrite).Ok?
  {
    SkillInstall.OnlyAtKeeps(m, fetched, temp, root);
    SkillInstall.UnblockedKept(m, fetched, temp, root);
    assert root <= root + [name] && SkillInstall.SameEntry(m, fetched, root + [name]);
    UnblockedChild(fetched, root, name);
    FreeToPlace(fetched, root + [name], overwrite);
  }

  /** Any directory `out` of the machine whose child `x` is a skill can be named by
      a repository in this way: the installation succeeds, and what is installed
      is the machine's own directory. */
  method InstallsForeignFiles(fs: FileSystem, temp: Path, root: Path, overwrite: bool, out: Path, x: string,
                              text: string, yaml: Frontmatter.Yaml, list: Frontmatter.Listing, name: string,
                              stamp: string)
    returns (r: Result<SkillInstall.InstallOutcome, SkillInstall.InstallError>)
    requires Closed(fs.entries) && fs.Faultless() && OneSkill(fs.entries, out, x, text)
    requires Frontmatter.Block(text).Some? && yaml(Frontmatter.Block(text).value) == Some(name)
             && SkillInstall.ValidSkillName(name)
    requires list(out) == [x] && list(temp + ["repo"]) == ["skills"]
    requires |temp| <= fs.depthLimit && Unblocked(fs.entries, temp) && SkillInstall.Ready(fs.entries, Some(root))
    requires Apart(temp, root) && Apart(out, temp) && Apart(out, root)
    requires Fits(fs.entries, out + [x], root + [SkillInstall.StagingName(name, stamp)], fs.depthLimit)
    requires root + [name] in fs.entries ==> overwrite && IsDir(fs.entries, root + [name])
    modifies fs`entries, fs`clock
    ensures r.Ok? && r.value.dest == root + [name]
    ensures SkillInstall.IsCopy(old(fs.entries), fs.readable, out + [x], fs.entries, root + [name])
  {
    ghost var m := fs.entries;
    ghost var made, fetched, found;
    LinkedTreeClosed(out);
    r, made, fetched, found :=
      SkillInstall.InstallAt(fs, SkillInstall.FromGit(LinkedTree(out), None), Some(root), overwrite, None, None,
                             yaml, list, temp, stamp);
    RepositoryCloned(fs, m, made, fetched, temp, out);
    ChosenForeign(m, fetched, temp, out, x, text, yaml, list, name);
    var staging := root + [SkillInstall.StagingName(name, stamp)];
    SkillInstall.ChildOutside(root, SkillInstall.StagingName(name, stamp), temp);
    SkillInstall.ChildOutside(root, SkillInstall.StagingName(name, stamp), out);
    ReadsForeign(m, fetched, temp, out, x, text, staging);
    ForeignKept(m, fetched, fs.readable, out, x, staging, fs.depthLimit);
    SkillInstall.OnlyAtParent(made, fetched, temp, "repo");
    SkillInstall.OnlyAtTrans(m, made, fetched, temp);
    StillFree(m, fetched, temp, root, name, overwrite);
  }
}
