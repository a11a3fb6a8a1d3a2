/** What an installation leaves at its destination, told from the source it was
    given (crates/bitrouter-skills/src/install.rs): fetching, finding and copying
    put together. */
module InstalledTree {
  import opened Wrappers
  import opened Strings
  import opened FileTree
  import opened SkillInstall
  import opened LinkTrace
  import Frontmatter

  lemma {:induction false} FromTree(fetched: Files, tree: Files, readable: Path -> bool, clone: Path, place: Path,
                                    p: Path)
    requires forall r :: At(fetched, clone, r) == if r in tree then Some(tree[r]) else None
    ensures CopiedAt(fetched, readable, clone + place, p) ==
            if Visible(readable, clone + place, p) then PrunedAt(tree, place, p) else None
  {
    AtAppend(fetched, clone, place, p);
    assert At(fetched, clone, place + p) == if place + p in tree then Some(tree[place + p]) else None;
  }

  /** From a cloned tree whose search stays: the pruned directory of the tree that
      the skill's path leads to, as far as its entries could be read. */
  lemma {:induction false} InstalledOfClone(fs: FileSystem, made: Files, fetched: Files, after: Files, origin: Origin,
                                            select: Option<string>, yaml: Frontmatter.Yaml, list: Frontmatter.Listing,
                                            temp: Path, found: Result<Frontmatter.Found, InstallError>, staging: Path,
                                            dest: Path)
    requires EmptyTemp(made, temp) && Apart(temp, staging)
    requires Located(fs, made, fetched, origin, select, yaml, list, temp, found) && found.Ok?
    requires Frontmatter.Lists(fetched, fs.readable, list)
    requires origin.FromGit? && TreeStays(origin)
    requires CopiesFrom(fs, fetched, found.value.dir, staging, after, dest)
    ensures Real(fetched, found.value.dir).Some? && temp + ["repo"] <= Real(fetched, found.value.dir).value
    ensures var place := Real(fetched, found.value.dir).value[|temp| + 1..];
            forall p :: At(after, dest, p) ==
                        if !Visible(fs.readable, temp + ["repo"] + place, p) then None
                        else PrunedAt(origin.tree, place, p)
  {
    var clone := temp + ["repo"];
    InstalledFromClone(fs, made, fetched, origin, select, yaml, list, temp, found, staging);
    var d := Real(fetched, found.value.dir).value;
    var place := d[|temp| + 1..];
    Suffix(clone, d);
    assert IsCopy(fetched, fs.readable, d, after, dest);
    CopyOfTree(fetched, origin.tree, fs.readable, clone, place, after, dest);
  }

  lemma {:induction false} CopyOfTree(fetched: Files, tree: Files, readable: Path -> bool, clone: Path, place: Path,
                                      after: Files, dest: Path)
    requires forall r :: At(fetched, clone, r) == if r in tree then Some(tree[r]) else None
    requires IsCopy(fetched, readable, clone + place, after, dest)
    ensures forall p :: At(after, dest, p) ==
                        if Visible(readable, clone + place, p) then PrunedAt(tree, place, p) else None
  {
    forall p
      ensures At(after, dest, p) == if Visible(readable, clone + place, p) then PrunedAt(tree, place, p) else None
    {
      FromTree(fetched, tree, readable, clone, place, p);
    }
  }

  /** From a local source: the pruned directory of the source itself, exactly when
      everything to be kept could be read both times it was copied. */
  lemma {:induction false} InstalledOfLocalIff(fs: FileSystem, made: Files, fetched: Files, after: Files, path: Path,
                                               select: Option<string>, yaml: Frontmatter.Yaml,
                                               list: Frontmatter.Listing, temp: Path,
                                               found: Result<Frontmatter.Found, InstallError>, staging: Path,
                                               dest: Path)
    requires EmptyTemp(made, temp) && Apart(temp, staging) && ReadsApart(made, path, temp + ["repo"])
    requires Located(fs, made, fetched, FromLocal(path), select, yaml, list, temp, found) && found.Ok?
    requires CopiesFrom(fs, fetched, found.value.dir, staging, after, dest)
    ensures temp + ["repo"] <= found.value.dir
    ensures var rel := found.value.dir[|temp| + 1..];
            var src := Real(made, path).value + rel;
            (forall p :: At(after, dest, p) == PrunedAt(made, src, p)) <==>
            (forall p :: PrunedAt(made, src, p).Some? ==>
                           Visible(fs.readable, src, p) && Visible(fs.readable, temp + ["repo"] + rel, p))
  {
    var clone, dir := temp + ["repo"], found.value.dir;
    InstalledFromLocal(fs, made, fetched, path, select, yaml, list, temp, found, staging);
    var rel := dir[|temp| + 1..];
    var src := Real(made, path).value;
    Suffix(clone, dir);
    SourceIsDir(fetched, dir, staging);
    LocalInstallIsOnePruneIff(made, fetched, fs.readable, src, clone, rel);
    SameAnswers(made, fetched, fs.readable, dir, src + rel, after, dest);
  }

  lemma {:induction false} SourceIsDir(fetched: Files, dir: Path, staging: Path)
    requires ReadsApart(Without(fetched, staging), dir, staging) && Source(fetched, dir, staging) == Some(dir)
    ensures IsDir(fetched, dir)
  {
  }

  lemma {:induction false} SameAnswers(made: Files, fetched: Files, readable: Path -> bool, dir: Path, src: Path,
                                       after: Files, dest: Path)
    requires IsCopy(fetched, readable, dir, after, dest)
    ensures (forall p :: At(after, dest, p) == PrunedAt(made, src, p)) <==>
            (forall p :: CopiedAt(fetched, readable, dir, p) == PrunedAt(made, src, p))
  {
    if forall p :: CopiedAt(fetched, readable, dir, p) == PrunedAt(made, src, p) {
      forall p ensures At(after, dest, p) == PrunedAt(made, src, p) {
        assert At(after, dest, p) == CopiedAt(fetched, readable, dir, p);
      }
    }
    if forall p :: At(after, dest, p) == PrunedAt(made, src, p) {
      forall p ensures CopiedAt(fetched, readable, dir, p) == PrunedAt(made, src, p) {
        assert At(after, dest, p) == CopiedAt(fetched, readable, dir, p);
      }
    }
  }

  // -------------------------------------------------- is the installed skill shown?

  /** Listing the installed skills shows a directory in which a `SKILL.md` leads to a file. */
  predicate Shown(m: Files, dest: Path) {
    var file := Real(m, dest + ["SKILL.md"]);
    file.Some? && file.value in m && m[file.value].File?
  }

  /** Where a skill was found, its `SKILL.md` is a file or a link. */
  lemma {:induction false} SkillFileThere(m: Files, yaml: Frontmatter.Yaml, dir: Path, d: Path)
    requires Closed(m) && Frontmatter.SkillIn(m, yaml, dir).Some? && Real(m, dir) == Some(d)
    ensures d + ["SKILL.md"] in m && (m[d + ["SKILL.md"]].File? || m[d + ["SKILL.md"]].Symlink?)
  {
    RootIsDir(m, dir + ["SKILL.md"]);
    LookupSplits(m, dir, "SKILL.md");
  }

  lemma {:induction false} ShownIffFile(m: Files, dest: Path)
    requires Closed(m) && IsDir(m, dest) && (dest + ["SKILL.md"] in m ==> !m[dest + ["SKILL.md"]].Symlink?)
    ensures Shown(m, dest) <==> dest + ["SKILL.md"] in m && m[dest + ["SKILL.md"]].File?
  {
    if dest + ["SKILL.md"] in m {
      RealIsReal(m, dest + ["SKILL.md"]);
    } else {
      EmptyFirst(dest);
      WalkThrough(m, [], dest, ["SKILL.md"], LINK_LIMIT);
    }
  }

  /** An installed skill is shown exactly when the `SKILL.md` it was found by is a
      file that could be read for the copy: discovery follows a link there, and
      the copy leaves it out. */
  lemma {:induction false} InstalledIsShownIff(fs: FileSystem, fetched: Files, after: Files, yaml: Frontmatter.Yaml,
                                               dir: Path, staging: Path, dest: Path)
    requires Closed(fetched) && Closed(after) && Frontmatter.SkillIn(fetched, yaml, dir).Some?
    requires ReadsApart(Without(fetched, staging), dir, staging) && Source(fetched, dir, staging) == Real(fetched, dir)
    requires CopiesFrom(fs, fetched, dir, staging, after, dest)
    ensures var file := Real(fetched, dir).value + ["SKILL.md"];
            file in fetched && (Shown(after, dest) <==> fetched[file].File? && fs.readable(file))
  {
    var d := Real(fetched, dir).value;
    SkillFileThere(fetched, yaml, dir, d);
    CopiedSkillFile(fetched, fs.readable, d, after, dest);
    ShownIffFile(after, dest);
  }

  lemma {:induction false} CopiedSkillFile(fetched: Files, readable: Path -> bool, d: Path, after: Files, dest: Path)
    requires IsDir(fetched, d) && IsCopy(fetched, readable, d, after, dest)
    ensures IsDir(after, dest)
    ensures var file := d + ["SKILL.md"];
            dest + ["SKILL.md"] in after <==>
              file in fetched && (fetched[file].File? || fetched[file].Dir?) && readable(file)
    ensures dest + ["SKILL.md"] in after ==>
            d + ["SKILL.md"] in fetched && after[dest + ["SKILL.md"]] == fetched[d + ["SKILL.md"]]
  {
    AtNil(fetched, d);
    AtNil(after, dest);
    assert At(after, dest, []) == CopiedAt(fetched, readable, d, []);
    assert At(after, dest, ["SKILL.md"]) == CopiedAt(fetched, readable, d, ["SKILL.md"]);
    OneVisible(readable, d, "SKILL.md");
  }

  lemma {:induction false} OneVisible(readable: Path -> bool, d: Path, n: string)
    ensures Visible(readable, d, [n]) <==> readable(d + [n])
  {
    assert [n][..1] == [n];
  }
}
