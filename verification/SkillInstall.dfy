/** Installing a skill: fetch into a temporary directory, stage beside the
    destination, swap into place (crates/bitrouter-skills/src/install.rs). */
module SkillInstall {
  import opened Wrappers
  import opened Strings
  import opened FileTree
  import Frontmatter
  import SkillSource

  datatype InstallError =
    | TempFailed | NotADirectory | FetchFailed | UnsafeSubdir | NoSkillFound | AmbiguousSkill
    | InvalidSkillName | HomeUnknown | AlreadyInstalled
    | ParentFailed | StageFailed | ReplaceFailed | RenameFailed

  datatype InstallTarget = Global | Project(projectRoot: Path)

  datatype InstallOutcome = InstallOutcome(name: string, dest: Path, wasUpdated: bool)

  /** Where the skill comes from: a directory of this file system, or a tree
      cloned from a repository, narrowed to a subdirectory or not. */
  datatype Origin = FromLocal(path: Path) | FromGit(tree: Files, subdir: Option<string>)

  predicate NameChar(c: char) {
    'a' <= c <= 'z' || 'A' <= c <= 'Z' || '0' <= c <= '9' || c == '-' || c == '_' || c == '.'
  }

  predicate ValidSkillName(name: string) {
    && name != "" && name[0] != '.'
    && '/' !in name && '\\' !in name && !Occurs("..", name)
    && forall k :: 0 <= k < |name| ==> NameChar(name[k])
  }

  function SkillsRoot(target: InstallTarget, home: Option<Path>): Option<Path> {
    match target
    case Global => if home.Some? then Some(home.value + [".claude", "skills"]) else None
    case Project(root) => Some(root + [".claude", "skills"])
  }

  /** The directory a skill installs into: the name is checked first. */
  function SkillDir(skillsRoot: Option<Path>, name: string): Result<Path, InstallError> {
    if !ValidSkillName(name) then Err(InvalidSkillName)
    else if skillsRoot.None? then Err(HomeUnknown)
    else Ok(skillsRoot.value + [name])
  }

  /** The staging directory is a hidden sibling of the destination. */
  function StagingName(name: string, stamp: string): string {
    "." + name + ".tmp." + stamp
  }

  /** The staging directory is never the destination, nor inside it. */
  lemma {:induction false} StagingIsApart(root: Path, name: string, stamp: string)
    requires ValidSkillName(name)
    ensures Apart(root + [StagingName(name, stamp)], root + [name])
  {
    var a, b := root + [StagingName(name, stamp)], root + [name];
    assert a[|root|] != b[|root|];
  }

  // -------------------------------------------------------------- state facts

  predicate SameEntry(m: Files, after: Files, p: Path) {
    (p in m <==> p in after) && (p in m ==> m[p] == after[p])
  }

  /** Nothing changed except at or below `a` and `b`. */
  ghost predicate SameOutside(m: Files, after: Files, a: Path, b: Path) {
    forall p :: !(a <= p) && !(b <= p) ==> SameEntry(m, after, p)
  }

  ghost predicate SameTree(m: Files, after: Files, root: Path) {
    forall p :: root <= p ==> SameEntry(m, after, p)
  }

  /** What is left at `root` was there before. */
  ghost predicate PartOf(after: Files, m: Files, root: Path) {
    forall p :: p in after && root <= p ==> p in m && after[p] == m[p]
  }

  lemma {:induction false} AbsentWhenMissing(m: Files, root: Path)
    requires Closed(m) && root !in m
    ensures Absent(m, root)
  {
    forall p | p in m ensures !(root <= p) {
      if root <= p {
        assert p == root + p[|root|..];
        BelowMissing(m, root, p[|root|..]);
      }
    }
  }

  /** When the parent is there, work at `dst` changes nothing else. */
  lemma {:induction false} OnlyAtExactly(m: Files, after: Files, dst: Path)
    requires Closed(m) && dst != [] && IsDir(m, dst[..|dst| - 1]) && OnlyAt(m, after, dst)
    ensures forall p :: !(dst <= p) ==> SameEntry(m, after, p)
  {
    forall p | p in after && !(dst <= p) ensures p in m {
      if p !in m {
        assert p == dst[..|p|] == dst[..|dst| - 1][..|p|];
        AncestorIsDir(m, dst[..|dst| - 1], |p|);
      }
    }
  }

  lemma {:induction false} SameTreeSameCopy(m: Files, after: Files, readable: Path -> bool, src: Path)
    requires SameTree(m, after, src)
    ensures forall r :: CopiedAt(after, readable, src, r) == CopiedAt(m, readable, src, r)
    ensures IsDir(m, src) == IsDir(after, src)
  {
    SameTreeAt(m, after, src);
    assert src <= src && SameEntry(m, after, src);
  }

  lemma {:induction false} ChildOutside(root: Path, name: string, src: Path)
    requires Apart(src, root)
    ensures Apart(src, root + [name])
  {
    var child := root + [name];
    PrefixOfSnoc(src, root, name);
    assert root <= child;
    if child <= src {
      PrefixTrans(root, child, src);
    }
  }

  // ---------------------------------------------------------- stage and swap

  /** What each result of a swap says about the destination. */
  ghost predicate SwapResult(m: Files, after: Files, dest: Path, updated: bool, r: Result<(), InstallError>) {
    match r
    case Ok(_) => SwapVerdict(m, dest, updated).Ok?
    case Err(StageFailed) => SameTree(m, after, dest)
    case Err(ReplaceFailed) => updated && PartOf(after, m, dest)
    case Err(RenameFailed) => if updated then Absent(after, dest) else SameTree(m, after, dest)
    case _ => false
  }

  /** The result of a swap when no operation fails: a file cannot be removed as a
      tree, and a link that leads nowhere is not removed but in the way. */
  function SwapVerdict(m: Files, dest: Path, updated: bool): Result<(), InstallError> {
    if updated && !Removable(m, dest) then Err(ReplaceFailed)
    else if !updated && dest in m then Err(RenameFailed)
    else Ok(())
  }

  /** Remove the old tree, if there is one. */
  method Clear(fs: FileSystem, staging: Path, dest: Path, updated: bool) returns (ok: bool)
    requires Closed(fs.entries) && Apart(staging, dest)
    requires dest != [] && IsDir(fs.entries, dest[..|dest| - 1])
    modifies fs`entries, fs`clock
    ensures Closed(fs.entries) && SameOutside(old(fs.entries), fs.entries, staging, dest)
    ensures IsDir(fs.entries, dest[..|dest| - 1])
    ensures SameTree(old(fs.entries), fs.entries, staging)
    ensures ok && updated ==> Removable(old(fs.entries), dest) && Absent(fs.entries, dest)
    ensures ok && !updated ==> fs.entries == old(fs.entries)
    ensures !ok ==> updated && PartOf(fs.entries, old(fs.entries), dest)
    ensures fs.Faultless() && (updated ==> Removable(old(fs.entries), dest)) ==> ok
  {
    ghost var m := fs.entries;
    if updated {
      RemoveAllClosed(fs.plan(fs.clock), m, dest);
      ok := fs.RemoveDirAll(dest);
    } else {
      ok := true;
    }
    ClearedFrame(m, fs.entries, staging, dest);
  }

  /** Remove the old tree, then rename the staged one into its place. */
  method Replace(fs: FileSystem, staging: Path, dest: Path, updated: bool) returns (r: Result<(), InstallError>)
    requires Closed(fs.entries) && Apart(staging, dest) && staging in fs.entries
    requires dest != [] && IsDir(fs.entries, dest[..|dest| - 1])
    modifies fs`entries, fs`clock
    ensures Closed(fs.entries) && SameOutside(old(fs.entries), fs.entries, staging, dest)
    ensures SwapResult(old(fs.entries), fs.entries, dest, updated, r) && r != Err(StageFailed)
    ensures r.Ok? ==> Absent(fs.entries, staging)
    ensures r.Ok? ==> forall p :: At(fs.entries, dest, p) == At(old(fs.entries), staging, p)
    ensures fs.Faultless() ==> r == SwapVerdict(old(fs.entries), dest, updated)
  {
    ghost var m := fs.entries;
    var ok := Clear(fs, staging, dest, updated);
    if !ok {
      return Err(ReplaceFailed);
    }
    ghost var cleared := fs.entries;
    SameTreeAt(m, cleared, staging);
    if dest !in cleared {
      AbsentWhenMissing(cleared, dest);
      RenameMoves(fs.plan(fs.clock), cleared, staging, dest);
    }
    ok := fs.Move(staging, dest);
    OutsideTrans(m, cleared, fs.entries, staging, dest);
    return if ok then Ok(()) else Err(RenameFailed);
  }

  lemma {:induction false} SameTreeAt(m: Files, after: Files, root: Path)
    requires SameTree(m, after, root)
    ensures forall r :: At(after, root, r) == At(m, root, r)
    ensures root in m <==> root in after
  {
    forall r ensures At(after, root, r) == At(m, root, r) {
      assert root <= root + r;
      assert SameEntry(m, after, root + r);
    }
    assert root <= root && SameEntry(m, after, root);
  }

  lemma {:induction false} OutsideTrans(m: Files, mid: Files, after: Files, a: Path, b: Path)
    requires SameOutside(m, mid, a, b) && SameOutside(mid, after, a, b)
    ensures SameOutside(m, after, a, b)
  {
    forall p | !(a <= p) && !(b <= p) ensures SameEntry(m, after, p) {
      assert SameEntry(m, mid, p) && SameEntry(mid, after, p);
    }
  }

  lemma {:induction false} ClearedFrame(m: Files, cleared: Files, staging: Path, dest: Path)
    requires Apart(staging, dest) && dest != [] && IsDir(m, dest[..|dest| - 1])
    requires OnlyAt(m, cleared, dest)
    requires forall p :: p in cleared ==> p in m && cleared[p] == m[p]
    ensures SameTree(m, cleared, staging)
    ensures IsDir(cleared, dest[..|dest| - 1])
    ensures SameOutside(m, cleared, staging, dest)
  {
    forall p | staging <= p ensures SameEntry(m, cleared, p) {
      NotBoth(dest, staging, p);
    }
    assert !(dest <= dest[..|dest| - 1]);
  }

  /** `after` holds at `dest` what `src` led to in `m`, when that is apart from
      the staging directory; a directory around the staging directory cannot be copied there. */
  ghost predicate Copies(fs: FileSystem, m: Files, src: Path, staging: Path, after: Files, dest: Path)
  {
    && (ReadsApart(m, src, staging) ==> IsCopy(m, fs.readable, Real(m, src).value, after, dest))
    && !(IsRealDir(m, src) && fs.Into(Real(m, src).value, staging))
  }

  ghost predicate IsCopy(m: Files, readable: Path -> bool, src: Path, after: Files, dest: Path) {
    forall p :: At(after, dest, p) == CopiedAt(m, readable, src, p)
  }

  /** No operation fails, and `src` leads to a directory that can be copied to the staging directory. */
  ghost predicate Works(fs: FileSystem, m: Files, src: Path, staging: Path)
  {
    fs.Faultless() && ReadsApart(m, src, staging) && Fits(m, Real(m, src).value, staging, fs.depthLimit)
  }

  /** Copy to the staging directory; the destination is not touched. */
  method Stage(fs: FileSystem, src: Path, staging: Path, dest: Path) returns (ok: bool)
    requires Closed(fs.entries) && Absent(fs.entries, staging) && Apart(staging, dest)
    requires dest != [] && staging != [] && IsDir(fs.entries, dest[..|dest| - 1])
    requires staging[..|staging| - 1] == dest[..|dest| - 1]
    modifies fs`entries, fs`clock
    ensures Closed(fs.entries) && IsDir(fs.entries, dest[..|dest| - 1])
    ensures SameOutside(old(fs.entries), fs.entries, staging, dest) && SameTree(old(fs.entries), fs.entries, dest)
    ensures ok ==> staging in fs.entries && Copies(fs, old(fs.entries), src, staging, fs.entries, staging)
    ensures Works(fs, old(fs.entries), src, staging) ==> ok
  {
    ghost var m := fs.entries;
    SwapStart(m, staging, dest);
    ok := fs.CopyDir(src, staging);
    StagedFrame(m, fs.entries, staging, dest);
  }

  /** Copy to the staging directory, then replace the destination with it. */
  method Swap(fs: FileSystem, src: Path, staging: Path, dest: Path, updated: bool) returns (r: Result<(), InstallError>)
    requires Closed(fs.entries) && Absent(fs.entries, staging) && Apart(staging, dest)
    requires dest != [] && staging != [] && IsDir(fs.entries, dest[..|dest| - 1])
    requires staging[..|staging| - 1] == dest[..|dest| - 1]
    modifies fs`entries, fs`clock
    ensures Closed(fs.entries) && SameOutside(old(fs.entries), fs.entries, staging, dest)
    ensures SwapResult(old(fs.entries), fs.entries, dest, updated, r)
    ensures r.Ok? ==> Absent(fs.entries, staging) && Copies(fs, old(fs.entries), src, staging, fs.entries, dest)
    ensures Works(fs, old(fs.entries), src, staging) ==> r == SwapVerdict(old(fs.entries), dest, updated)
  {
    ghost var m := fs.entries;
    var ok := Stage(fs, src, staging, dest);
    if !ok {
      return Err(StageFailed);
    }
    ghost var staged := fs.entries;
    assert SameEntry(m, staged, dest) by {
      assert dest <= dest;
    }
    r := Replace(fs, staging, dest, updated);
    SwapFrame(m, staged, fs.entries, staging, dest, updated, r);
  }

  lemma {:induction false} SwapStart(m: Files, staging: Path, dest: Path)
    requires Closed(m) && Absent(m, staging)
    requires dest != [] && staging != [] && IsDir(m, dest[..|dest| - 1])
    requires staging[..|staging| - 1] == dest[..|dest| - 1]
    ensures Unblocked(m, staging)
  {
    var parent := dest[..|dest| - 1];
    assert staging == parent + [staging[|staging| - 1]];
    ChildUnblocked(m, parent, staging[|staging| - 1]);
  }

  lemma {:induction false} StagedFrame(m: Files, staged: Files, staging: Path, dest: Path)
    requires Closed(m) && OnlyAt(m, staged, staging) && Apart(staging, dest)
    requires dest != [] && staging != [] && IsDir(m, dest[..|dest| - 1])
    requires staging[..|staging| - 1] == dest[..|dest| - 1]
    ensures SameOutside(m, staged, staging, dest) && SameTree(m, staged, dest)
    ensures SameEntry(m, staged, dest) && IsDir(staged, dest[..|dest| - 1])
  {
    OnlyAtExactly(m, staged, staging);
    forall p | dest <= p ensures SameEntry(m, staged, p) {
      NotBoth(staging, dest, p);
    }
    assert dest <= dest;
    assert SameEntry(m, staged, dest[..|dest| - 1]) by {
      assert !(staging <= dest[..|dest| - 1]);
    }
  }

  lemma {:induction false} SwapFrame(m: Files, staged: Files, after: Files, staging: Path, dest: Path, updated: bool,
                                     r: Result<(), InstallError>)
    requires SameOutside(m, staged, staging, dest) && SameTree(m, staged, dest)
    requires SameOutside(staged, after, staging, dest)
    requires SwapResult(staged, after, dest, updated, r) && r != Err(StageFailed)
    ensures SameOutside(m, after, staging, dest)
    ensures SwapResult(m, after, dest, updated, r)
  {
    forall p | !(staging <= p) && !(dest <= p) ensures SameEntry(m, after, p) {
      assert SameEntry(m, staged, p) && SameEntry(staged, after, p);
    }
    SwapAfter(m, staged, after, dest, updated, r);
  }

  // ------------------------------------------------------------------- place

  /** Whether `p` is as before, or a directory newly made on the way to `root`. */
  predicate KeptOrMade(m: Files, after: Files, p: Path, root: Path) {
    SameEntry(m, after, p) || (p !in m && p in after && after[p] == Dir && p <= root)
  }

  /** Only the destination, the staging directory and the directories above them changed. */
  ghost predicate PlaceFrame(m: Files, after: Files, root: Path, staging: Path, dest: Path) {
    forall p :: !(staging <= p) && !(dest <= p) ==> KeptOrMade(m, after, p, root)
  }

  /** What each outcome says about the destination. */
  ghost predicate PlaceResult(m: Files, after: Files, dest: Path, existed: bool, overwrite: bool,
                              r: Result<bool, InstallError>) {
    match r
    case Ok(updated) => updated == existed && SwapVerdict(m, dest, existed).Ok?
    case Err(AlreadyInstalled) => existed && !overwrite && SameTree(m, after, dest)
    case Err(ParentFailed) => SameTree(m, after, dest)
    case Err(e) => SwapResult(m, after, dest, existed, Err(e))
  }

  lemma {:induction false} TreeTrans(m: Files, mid: Files, after: Files, root: Path)
    requires SameTree(m, mid, root) && SameTree(mid, after, root)
    ensures SameTree(m, after, root)
  {
    forall p | root <= p ensures SameEntry(m, after, p) {
      assert SameEntry(m, mid, p) && SameEntry(mid, after, p);
    }
  }

  lemma {:induction false} WithoutKeeps(m: Files, gone: Path, root: Path)
    requires Apart(root, gone)
    ensures SameTree(m, Without(m, gone), root)
    ensures SameOutside(m, Without(m, gone), gone, root)
  {
    forall p | root <= p ensures SameEntry(m, Without(m, gone), p) {
      NotBoth(root, gone, p);
    }
  }

  lemma {:induction false} FrameThen(m: Files, mid: Files, after: Files, root: Path, staging: Path, dest: Path)
    requires PlaceFrame(m, mid, root, staging, dest) && SameOutside(mid, after, staging, dest)
    ensures PlaceFrame(m, after, root, staging, dest)
  {
    forall p | !(staging <= p) && !(dest <= p) ensures KeptOrMade(m, after, p, root) {
      assert KeptOrMade(m, mid, p, root) && SameEntry(mid, after, p);
    }
  }

  lemma {:induction false} SwapThen(m: Files, mid: Files, after: Files, dest: Path, updated: bool,
                                    r: Result<(), InstallError>)
    requires SwapResult(m, mid, dest, updated, r) && SameTree(mid, after, dest)
    ensures SwapResult(m, after, dest, updated, r)
  {
    if r == Err(ReplaceFailed) {
      PartThen(m, mid, after, dest);
    } else if r == Err(RenameFailed) && updated {
      AbsentKept(mid, after, dest);
    } else if r.Err? {
      TreeTrans(m, mid, after, dest);
    }
  }

  lemma {:induction false} PartThen(m: Files, mid: Files, after: Files, dest: Path)
    requires PartOf(mid, m, dest) && SameTree(mid, after, dest)
    ensures PartOf(after, m, dest)
  {
    forall p | p in after && dest <= p ensures p in mid && after[p] == mid[p] {
      assert SameEntry(mid, after, p);
    }
  }

  lemma {:induction false} PartAfter(m: Files, mid: Files, after: Files, dest: Path)
    requires SameTree(m, mid, dest) && PartOf(after, mid, dest)
    ensures PartOf(after, m, dest)
  {
    forall p | p in after && dest <= p ensures p in m && after[p] == m[p] {
      assert SameEntry(m, mid, p);
    }
  }

  lemma {:induction false} SwapAfter(m: Files, mid: Files, after: Files, dest: Path, updated: bool,
                                     r: Result<(), InstallError>)
    requires SameTree(m, mid, dest) && SwapResult(mid, after, dest, updated, r)
    ensures SwapResult(m, after, dest, updated, r)
    ensures SwapVerdict(m, dest, updated) == SwapVerdict(mid, dest, updated)
  {
    assert dest <= dest && SameEntry(m, mid, dest);
    if r == Err(ReplaceFailed) {
      PartAfter(m, mid, after, dest);
    } else if r.Err? && !(r == Err(RenameFailed) && updated) {
      TreeTrans(m, mid, after, dest);
    }
  }

  /** Make the parent directory, and clear a stale staging directory out of it. */
  method Prepare(fs: FileSystem, root: Path, staging: Path, dest: Path) returns (ok: bool)
    requires Closed(fs.entries) && Apart(dest, staging)
    requires |staging| == |root| + 1 == |dest| && root <= staging && root <= dest
    modifies fs`entries, fs`clock
    ensures Closed(fs.entries) && PlaceFrame(old(fs.entries), fs.entries, root, staging, dest)
    ensures SameTree(old(fs.entries), fs.entries, dest)
    ensures ok ==> IsDir(fs.entries, root) && Absent(fs.entries, staging)
    ensures ok ==> OnlyAbove(Without(old(fs.entries), staging), fs.entries, root)
    ensures Absent(old(fs.entries), staging) ==> Absent(fs.entries, staging)
    ensures fs.Faultless() && |root| <= fs.depthLimit && Unblocked(old(fs.entries), root) ==> ok
  {
    ghost var m := fs.entries;
    MakeDirsAnywhere(fs.plan(fs.clock), fs.depthLimit, m, root);
    ok := fs.CreateDirAll(root);
    ghost var made := fs.entries;
    MadeRoot(m, made, root, staging, dest);
    if ok {
      WithoutClosed(made, staging);
      WithoutKeeps(made, staging, dest);
      fs.Discard(staging);
      TreeTrans(m, made, fs.entries, dest);
      FrameThen(m, made, fs.entries, root, staging, dest);
    }
  }

  /** Making the parent directories leaves the staging directory and the destination alone. */
  lemma {:induction false} MadeRoot(m: Files, made: Files, root: Path, staging: Path, dest: Path)
    requires OnlyAbove(m, made, root)
    requires |staging| == |root| + 1 == |dest|
    ensures SameTree(m, made, dest)
    ensures Absent(m, staging) ==> Absent(made, staging)
    ensures PlaceFrame(m, made, root, staging, dest)
  {
  }

  /** Directories made above the staging directory do not matter to what is copied there. */
  lemma {:induction false} PreparedReads(m: Files, ready: Files, readable: Path -> bool, src: Path, root: Path,
                                         staging: Path)
    requires OnlyAbove(Without(m, staging), ready, root) && root <= staging
    ensures IsRealDir(Without(m, staging), src) ==>
            IsRealDir(ready, src) && Real(ready, src) == Real(Without(m, staging), src)
    ensures ReadsApart(Without(m, staging), src, staging) ==>
              ReadsApart(ready, src, staging) && SameTree(m, ready, Real(ready, src).value)
  {
    var rest := Without(m, staging);
    if IsRealDir(rest, src) {
      WalkGrows(rest, ready, [], src, LINK_LIMIT);
      var d := Real(rest, src).value;
      if Apart(d, staging) {
        forall p | d <= p ensures SameEntry(m, ready, p) {
          NotBoth(d, staging, p);
          if p <= root {
            PrefixTrans(d, p, root);
            PrefixTrans(d, root, staging);
          }
        }
      }
    }
  }

  lemma {:induction false} SameFits(m: Files, after: Files, src: Path, dst: Path, limit: nat)
    requires SameTree(m, after, src) && Fits(m, src, dst, limit)
    ensures Fits(after, src, dst, limit)
  {
    forall p | p in after && src <= p ensures |dst| + |p| - |src| <= limit {
      assert SameEntry(m, after, p);
    }
  }

  /** What is promised of the copy, told from the state before the directories were made. */
  lemma {:induction false} PreparedCopy(fs: FileSystem, m: Files, ready: Files, src: Path, root: Path, staging: Path)
    requires OnlyAbove(Without(m, staging), ready, root) && root <= staging
    ensures forall after, dest :: Copies(fs, ready, src, staging, after, dest) ==>
            CopiesFrom(fs, m, src, staging, after, dest)
    ensures WorksFrom(fs, m, src, staging) ==> Works(fs, ready, src, staging)
  {
    PreparedReads(m, ready, fs.readable, src, root, staging);
    if ReadsApart(Without(m, staging), src, staging) {
      var d := Real(ready, src).value;
      SameTreeSameCopy(m, ready, fs.readable, d);
      if WorksFrom(fs, m, src, staging) {
        SameFits(m, ready, d, staging, fs.depthLimit);
      }
    }
  }

  /** Where `src` leads once the staging directory has been cleared. */
  function Source(m: Files, src: Path, staging: Path): Option<Path> {
    Real(Without(m, staging), src)
  }

  /** As `Copies`, but from a state in which a stale staging directory may still be there. */
  ghost predicate CopiesFrom(fs: FileSystem, m: Files, src: Path, staging: Path, after: Files, dest: Path)
  {
    && (ReadsApart(Without(m, staging), src, staging) ==>
        IsCopy(m, fs.readable, Source(m, src, staging).value, after, dest))
    && !(IsRealDir(Without(m, staging), src) && fs.Into(Source(m, src, staging).value, staging))
  }

  ghost predicate WorksFrom(fs: FileSystem, m: Files, src: Path, staging: Path)
  {
    && fs.Faultless() && ReadsApart(Without(m, staging), src, staging)
    && Fits(m, Source(m, src, staging).value, staging, fs.depthLimit)
  }

  /** Stage and swap; on a failure clear the staging directory, whose guard is still armed. */
  method SwapGuarded(fs: FileSystem, src: Path, staging: Path, dest: Path, updated: bool)
    returns (r: Result<(), InstallError>)
    requires Closed(fs.entries) && Absent(fs.entries, staging) && Apart(staging, dest)
    requires dest != [] && staging != [] && IsDir(fs.entries, dest[..|dest| - 1])
    requires staging[..|staging| - 1] == dest[..|dest| - 1]
    modifies fs`entries, fs`clock
    ensures Closed(fs.entries) && SameOutside(old(fs.entries), fs.entries, staging, dest)
    ensures SwapResult(old(fs.entries), fs.entries, dest, updated, r) && Absent(fs.entries, staging)
    ensures r.Ok? ==> Copies(fs, old(fs.entries), src, staging, fs.entries, dest)
    ensures Works(fs, old(fs.entries), src, staging) ==> r == SwapVerdict(old(fs.entries), dest, updated)
  {
    ghost var m := fs.entries;
    r := Swap(fs, src, staging, dest, updated);
    if r.Err? {
      ghost var mid := fs.entries;
      WithoutClosed(mid, staging);
      WithoutKeeps(mid, staging, dest);
      fs.Discard(staging);
      OutsideTrans(m, mid, fs.entries, staging, dest);
      SwapThen(m, mid, fs.entries, dest, updated, r);
    }
  }

  lemma {:induction false} InRoot(root: Path, name: string, stamp: string)
    requires ValidSkillName(name)
    ensures var dest, staging := root + [name], root + [StagingName(name, stamp)];
            && Apart(dest, staging) && Apart(staging, dest)
            && staging[..|staging| - 1] == root == dest[..|dest| - 1]
  {
    StagingIsApart(root, name, stamp);
  }

  /** A result reached after the staging directory was cleared for use. */
  predicate ReachedStaging<T>(r: Result<T, InstallError>) {
    r.Ok? || r.error.StageFailed? || r.error.ReplaceFailed? || r.error.RenameFailed?
  }

  /** The result of placing a directory when no operation fails. */
  function PlaceVerdict(m: Files, dest: Path, overwrite: bool): Result<bool, InstallError> {
    if Exists(m, dest) && !overwrite then Err(AlreadyInstalled)
    else
      match SwapVerdict(m, dest, Exists(m, dest))
      case Ok(_) => Ok(Exists(m, dest))
      case Err(e) => Err(e)
  }

  /** What placing the directory that `src` leads to as `dest` does. */
  ghost predicate PlaceDone(fs: FileSystem, m: Files, after: Files, src: Path, root: Path, staging: Path, dest: Path,
                            overwrite: bool, r: Result<bool, InstallError>) {
    && Closed(after)
    && PlaceResult(m, after, dest, Exists(m, dest), overwrite, r)
    && (r == Err(AlreadyInstalled) ==> after == m)
    && (Exists(m, dest) && !overwrite ==> r == Err(AlreadyInstalled))
    && PlaceFrame(m, after, root, staging, dest)
    && (Absent(m, staging) || ReachedStaging(r) ==> Absent(after, staging))
    && (r.Ok? ==> CopiesFrom(fs, m, src, staging, after, dest))
    && (WorksFrom(fs, m, src, staging) && Unblocked(m, root) ==> r == PlaceVerdict(m, dest, overwrite))
  }

  lemma {:induction false} NoParent(fs: FileSystem, m: Files, after: Files, src: Path, root: Path, staging: Path,
                                    dest: Path, overwrite: bool)
    requires Closed(after) && PlaceFrame(m, after, root, staging, dest) && SameTree(m, after, dest)
    requires Absent(m, staging) ==> Absent(after, staging)
    requires !(Exists(m, dest) && !overwrite)
    requires !(WorksFrom(fs, m, src, staging) && Unblocked(m, root))
    ensures PlaceDone(fs, m, after, src, root, staging, dest, overwrite, Err(ParentFailed))
  {
  }

  lemma {:induction false} Swapped(fs: FileSystem, m: Files, ready: Files, after: Files, src: Path, root: Path,
                                   staging: Path, dest: Path, overwrite: bool, r: Result<(), InstallError>)
    requires Closed(after) && PlaceFrame(m, ready, root, staging, dest) && SameTree(m, ready, dest)
    requires SameOutside(ready, after, staging, dest) && Absent(after, staging)
    requires OnlyAbove(Without(m, staging), ready, root) && root <= staging
    requires !(Exists(m, dest) && !overwrite)
    requires SwapResult(ready, after, dest, Exists(m, dest), r)
    requires r.Ok? ==> Copies(fs, ready, src, staging, after, dest)
    requires Works(fs, ready, src, staging) ==> r == SwapVerdict(ready, dest, Exists(m, dest))
    ensures PlaceDone(fs, m, after, src, root, staging, dest, overwrite,
                      if r.Ok? then Ok(Exists(m, dest)) else Err(r.error))
  {
    PreparedCopy(fs, m, ready, src, root, staging);
    FrameThen(m, ready, after, root, staging, dest);
    SwapAfter(m, ready, after, dest, Exists(m, dest), r);
  }

  /** Install the directory that `src` leads to as `name` below `root`. */
  method Place(fs: FileSystem, src: Path, root: Path, name: string, stamp: string, overwrite: bool)
    returns (r: Result<bool, InstallError>)
    requires Closed(fs.entries) && ValidSkillName(name)
    modifies fs`entries, fs`clock
    ensures PlaceDone(fs, old(fs.entries), fs.entries, src, root, root + [StagingName(name, stamp)], root + [name],
                      overwrite, r)
  {
    ghost var m := fs.entries;
    var dest, staging := root + [name], root + [StagingName(name, stamp)];
    InRoot(root, name, stamp);
    var updated := Exists(fs.entries, dest);
    if updated && !overwrite {
      return Err(AlreadyInstalled);
    }
    var ok := Prepare(fs, root, staging, dest);
    if !ok {
      NoParent(fs, m, fs.entries, src, root, staging, dest, overwrite);
      return Err(ParentFailed);
    }
    ghost var ready := fs.entries;
    var swapped := SwapGuarded(fs, src, staging, dest, updated);
    Swapped(fs, m, ready, fs.entries, src, root, staging, dest, overwrite, swapped);
    return if swapped.Ok? then Ok(updated) else Err(swapped.error);
  }

  // ------------------------------------------------------- fetch and choose

  /** A local source leads to a directory. */
  predicate ValidOrigin(m: Files, origin: Origin) {
    origin.FromLocal? ==> IsRealDir(m, origin.path)
  }

  /** What a fetch into `clone` leaves there: a pruned copy of the local source, or
      the cloned tree. A local source around `clone` cannot be fetched. */
  ghost predicate Fetched(fs: FileSystem, m: Files, now: Files, origin: Origin, clone: Path) {
    match origin
    case FromLocal(path) => IsRealDir(m, path) && Copies(fs, m, path, clone, now, clone)
    case FromGit(tree, _) => forall p :: At(now, clone, p) == if p in tree then Some(tree[p]) else None
  }

  /** No operation fails, and a local source is a directory that can be copied. */
  ghost predicate Fetchable(fs: FileSystem, m: Files, origin: Origin, clone: Path) {
    fs.Faultless() && (origin.FromLocal? ==> Works(fs, m, origin.path, clone))
  }

  /** A cloned tree is a tree. */
  ghost predicate WellFormed(origin: Origin) {
    origin.FromGit? ==> Closed(origin.tree) && IsDir(origin.tree, [])
  }

  ghost predicate EmptyTemp(m: Files, temp: Path) {
    Closed(m) && IsDir(m, temp) && forall p :: p in m && temp <= p ==> p == temp
  }

  /** A fresh temporary directory. */
  method MakeTemp(fs: FileSystem, temp: Path) returns (ok: bool)
    requires Closed(fs.entries)
    modifies fs`entries, fs`clock
    ensures Closed(fs.entries) && OnlyAt(old(fs.entries), fs.entries, temp)
    ensures if ok then EmptyTemp(fs.entries, temp) else Absent(fs.entries, temp)
    ensures fs.Faultless() && |temp| <= fs.depthLimit && Unblocked(old(fs.entries), temp) ==> ok
  {
    ghost var m := fs.entries;
    WithoutClosed(m, temp);
    fs.Discard(temp);
    ghost var cleared := fs.entries;
    MakeDirsFresh(fs.plan(fs.clock), fs.depthLimit, cleared, temp);
    MakeDirsAnywhere(fs.plan(fs.clock), fs.depthLimit, cleared, temp);
    assert temp <= temp;
    ok := fs.CreateDirAll(temp);
    if !ok {
      AbsentWhenMissing(fs.entries, temp);
    }
  }

  /** Copy or clone the source to a child of the temporary directory. */
  method Fetch(fs: FileSystem, origin: Origin, temp: Path) returns (r: Result<(), InstallError>)
    requires EmptyTemp(fs.entries, temp) && WellFormed(origin)
    modifies fs`entries, fs`clock
    ensures Closed(fs.entries) && OnlyAt(old(fs.entries), fs.entries, temp + ["repo"])
    ensures r.Ok? ==> Fetched(fs, old(fs.entries), fs.entries, origin, temp + ["repo"])
    ensures r.Err? ==> r.error == FetchFailed || r.error == NotADirectory
    ensures r == Err(NotADirectory) <==> !ValidOrigin(old(fs.entries), origin)
    ensures Fetchable(fs, old(fs.entries), origin, temp + ["repo"]) ==> r.Ok?
  {
    ghost var m := fs.entries;
    var clone := temp + ["repo"];
    CloneIsFresh(m, temp, "repo");
    var ok;
    match origin {
      case FromLocal(path) =>
        if !IsRealDir(fs.entries, path) {
          return Err(NotADirectory);
        }
        ok := fs.CopyDir(path, clone);
      case FromGit(tree, _) =>
        CloneClosed(fs.plan(fs.clock), m, clone, tree);
        CloneWorks(fs.plan(fs.clock), m, clone, tree);
        ok := fs.CloneInto(clone, tree);
    }
    return if ok then Ok(()) else Err(FetchFailed);
  }

  lemma {:induction false} CloneIsFresh(m: Files, temp: Path, child: string)
    requires EmptyTemp(m, temp)
    ensures Absent(m, temp + [child]) && Unblocked(m, temp + [child])
    ensures (temp + [child])[..|temp + [child]| - 1] == temp
  {
    forall p | temp + [child] <= p ensures p !in m {
      BelowSnoc(temp, child, p);
    }
    ChildUnblocked(m, temp, child);
  }

  lemma {:induction false} CloneWorks(f: Fault, m: Files, clone: Path, tree: Files)
    requires Absent(m, clone) && IsDir(tree, []) && clone != [] && IsDir(m, clone[..|clone| - 1])
    ensures Clone(f, m, clone, tree).0 ==>
              forall r :: At(Clone(f, m, clone, tree).1, clone, r) == if r in tree then Some(tree[r]) else None
    ensures f.Fine? ==> Clone(f, m, clone, tree).0
  {
    if Clone(f, m, clone, tree).0 {
      CloneComplete(f, m, clone, tree);
    }
  }

  lemma {:induction false} OnlyAtParent(m: Files, after: Files, temp: Path, child: string)
    requires OnlyAt(m, after, temp + [child]) && IsDir(m, temp)
    ensures OnlyAt(m, after, temp)
  {
    forall p: Path | p in m || p in after {
      OutsideChild(temp, child, p);
    }
  }

  function FirstNamed(found: seq<Frontmatter.Found>, name: string): Option<Frontmatter.Found> {
    if found == [] then None
    else if found[0].name == name then Some(found[0])
    else FirstNamed(found[1..], name)
  }

  function SearchRoot(origin: Origin, clone: Path): Result<Path, InstallError> {
    if origin.FromGit? && origin.subdir.Some? then
      if SkillSource.SubdirIsSafe(origin.subdir.value)
      then Ok(SkillSource.Enter(clone, SkillSource.Split(origin.subdir.value, '/')))
      else Err(UnsafeSubdir)
    else Ok(clone)
  }

  function Choose(found: seq<Frontmatter.Found>, select: Option<string>): Result<Frontmatter.Found, InstallError> {
    match select
    case Some(name) =>
      (match FirstNamed(found, name)
       case Some(f) => Ok(f)
       case None => Err(NoSkillFound))
    case None =>
      if |found| > 1 then Err(AmbiguousSkill) else if |found| == 1 then Ok(found[0]) else Err(NoSkillFound)
  }

  /** The skill of the fetched tree that is to be installed. */
  function Chosen(now: Files, origin: Origin, clone: Path, select: Option<string>, yaml: Frontmatter.Yaml,
                  list: Frontmatter.Listing)
    : Result<Frontmatter.Found, InstallError>
  {
    match SearchRoot(origin, clone)
    case Ok(root) => Choose(Frontmatter.Discovered(now, yaml, list, root), select)
    case Err(e) => Err(e)
  }

  lemma {:induction false} FirstNamedIn(found: seq<Frontmatter.Found>, name: string)
    ensures FirstNamed(found, name).Some? ==> FirstNamed(found, name).value in found
  {
    if found != [] {
      FirstNamedIn(found[1..], name);
    }
  }

  lemma {:induction false} ChooseIn(found: seq<Frontmatter.Found>, select: Option<string>)
    ensures Choose(found, select).Ok? ==> Choose(found, select).value in found
  {
    if select.Some? {
      FirstNamedIn(found, select.value);
    }
  }

  /** Whatever the source says, the chosen skill is named by a path below the
      clone that leads to a directory. */
  lemma {:induction false} ChosenIsBelow(now: Files, origin: Origin, clone: Path, select: Option<string>,
                                         yaml: Frontmatter.Yaml, list: Frontmatter.Listing)
    requires Closed(now)
    ensures var r := Chosen(now, origin, clone, select, yaml, list);
            r.Ok? ==> && clone <= r.value.dir && IsRealDir(now, r.value.dir)
                      && SearchRoot(origin, clone).Ok?
                      && r.value in Frontmatter.Discovered(now, yaml, list, SearchRoot(origin, clone).value)
  {
    if Chosen(now, origin, clone, select, yaml, list).Err? {
      return;
    }
    var root := SearchRoot(origin, clone).value;
    var found := Frontmatter.Discovered(now, yaml, list, root);
    if origin.FromGit? && origin.subdir.Some? {
      SkillSource.SafeSubdirStaysInside(clone, origin.subdir.value);
    }
    ChooseIn(found, select);
    var f := Choose(found, select).value;
    Frontmatter.DiscoveredBelow(now, yaml, list, root, f);
    PrefixTrans(clone, root, f.dir);
  }

  // ----------------------------------------------------------------- install

  /** Outside `temp`, only directories above it may have appeared. */
  ghost predicate TempFrame(m: Files, after: Files, temp: Path) {
    forall p :: !(temp <= p) ==> KeptOrMade(m, after, p, temp)
  }

  /** Besides, the destination and directories above it may have changed. */
  ghost predicate InstallFrame(m: Files, after: Files, temp: Path, root: Path, staging: Path, dest: Path) {
    forall p :: !(temp <= p) && !(staging <= p) && !(dest <= p) ==>
                  KeptOrMade(m, after, p, temp) || KeptOrMade(m, after, p, root)
  }

  predicate NoChoice(e: InstallError) {
    e.UnsafeSubdir? || e.NoSkillFound? || e.AmbiguousSkill?
  }

  /** A result that is reached before anything is placed. */
  predicate NothingPlaced<T>(r: Result<T, InstallError>) {
    r.Err? && (r.error.TempFailed? || r.error.NotADirectory? || r.error.FetchFailed? || NoChoice(r.error)
               || r.error.InvalidSkillName? || r.error.HomeUnknown?)
  }

  lemma {:induction false} ApartChild(temp: Path, root: Path, name: string)
    requires Apart(temp, root)
    ensures Apart(root + [name], temp)
  {
    ChildOutside(root, name, temp);
  }

  lemma {:induction false} OnlyAtKeeps(m: Files, after: Files, temp: Path, root: Path)
    requires OnlyAt(m, after, temp) && Apart(root, temp)
    ensures SameTree(m, after, root)
  {
    SameSource(m, after, root, temp);
  }

  lemma {:induction false} AbsentKept(m: Files, after: Files, root: Path)
    requires SameTree(m, after, root) && Absent(m, root)
    ensures Absent(after, root)
  {
    forall p | root <= p ensures p !in after {
      assert SameEntry(m, after, p);
    }
  }

  lemma {:induction false} PlaceTrans(m: Files, mid: Files, after: Files, dest: Path, existed: bool, overwrite: bool,
                                      r: Result<bool, InstallError>)
    requires SameTree(m, mid, dest) && PlaceResult(mid, after, dest, existed, overwrite, r)
    ensures PlaceResult(m, after, dest, existed, overwrite, r)
  {
    match r
    case Ok(_) => SwapAfter(m, mid, after, dest, existed, Ok(()));
    case Err(e) =>
      if e.AlreadyInstalled? || e.ParentFailed? {
        TreeTrans(m, mid, after, dest);
      } else {
        SwapAfter(m, mid, after, dest, existed, Err(e));
      }
  }

  lemma {:induction false} PlaceThen(m: Files, mid: Files, after: Files, dest: Path, existed: bool, overwrite: bool,
                                     r: Result<bool, InstallError>)
    requires PlaceResult(m, mid, dest, existed, overwrite, r) && SameTree(mid, after, dest)
    ensures PlaceResult(m, after, dest, existed, overwrite, r)
  {
    if r.Err? {
      if r.error.AlreadyInstalled? || r.error.ParentFailed? {
        TreeTrans(m, mid, after, dest);
      } else {
        SwapThen(m, mid, after, dest, existed, Err(r.error));
      }
    }
  }

  lemma {:induction false} WholeFrame(m: Files, fetched: Files, placed: Files, temp: Path, root: Path, staging: Path,
                                      dest: Path)
    requires OnlyAt(m, fetched, temp) && PlaceFrame(fetched, placed, root, staging, dest)
    ensures InstallFrame(m, Without(placed, temp), temp, root, staging, dest)
  {
    var after := Without(placed, temp);
    forall p | !(temp <= p) && !(staging <= p) && !(dest <= p)
      ensures KeptOrMade(m, after, p, temp) || KeptOrMade(m, after, p, root)
    {
      assert KeptOrMade(fetched, placed, p, root);
    }
  }

  lemma {:induction false} EarlyFrame(m: Files, fetched: Files, temp: Path)
    requires OnlyAt(m, fetched, temp)
    ensures TempFrame(m, fetched, temp) && TempFrame(m, Without(fetched, temp), temp)
  {
  }

  lemma {:induction false} UnblockedKept(m: Files, after: Files, temp: Path, root: Path)
    requires OnlyAt(m, after, temp) && Apart(temp, root) && Unblocked(m, root)
    ensures Unblocked(after, root)
  {
    forall k | 0 <= k <= |root| && root[..k] in after ensures after[root[..k]].Dir? {
      var p := root[..k];
      if temp <= p {
        PrefixTrans(temp, p, root);
      }
    }
  }

  /** What placing the skill did, told from the state before it. */
  ghost predicate Placed(m: Files, after: Files, root: Path, name: string, stamp: string, overwrite: bool,
                         r: Result<InstallOutcome, InstallError>) {
    var dest, staging := root + [name], root + [StagingName(name, stamp)];
    && PlaceResult(m, after, dest, Exists(m, dest), overwrite, if r.Ok? then Ok(r.value.wasUpdated) else Err(r.error))
    && PlaceFrame(m, after, root, staging, dest)
    && (Absent(m, staging) || ReachedStaging(r) ==> Absent(after, staging))
  }

  method PickSkill(now: Files, origin: Origin, clone: Path, select: Option<string>, yaml: Frontmatter.Yaml,
                   list: Frontmatter.Listing)
    returns (r: Result<Frontmatter.Found, InstallError>)
    requires Closed(now)
    ensures r == Chosen(now, origin, clone, select, yaml, list)
    ensures r.Ok? ==> clone <= r.value.dir && IsRealDir(now, r.value.dir)
    ensures r.Err? ==> NoChoice(r.error)
  {
    var searchRoot := SearchRoot(origin, clone);
    if searchRoot.Err? {
      return Err(searchRoot.error);
    }
    var found := Frontmatter.DiscoverAllSkills(now, yaml, list, searchRoot.value);
    r := Choose(found, select);
    ChosenIsBelow(now, origin, clone, select, yaml, list);
  }

  /** Nothing but directories in the way of the skills directory. */
  ghost predicate Ready(m: Files, root: Option<Path>) {
    root.Some? ==> Unblocked(m, root.value)
  }

  lemma {:induction false} ReadyKept(m: Files, after: Files, temp: Path, root: Option<Path>)
    requires OnlyAt(m, after, temp) && (root.Some? ==> Apart(temp, root.value))
    ensures Ready(m, root) ==> Ready(after, root)
  {
    if root.Some? && Ready(m, root) {
      UnblockedKept(m, after, temp, root.value);
    }
  }

  /** The outcome of placing a skill when no operation fails. */
  function Verdict(m: Files, name: string, skillsRoot: Option<Path>,
                   overwrite: bool): Result<InstallOutcome, InstallError> {
    match SkillDir(skillsRoot, name)
    case Err(e) => Err(e)
    case Ok(dest) =>
      match PlaceVerdict(m, dest, overwrite)
      case Ok(updated) => Ok(InstallOutcome(name, dest, updated))
      case Err(e) => Err(e)
  }

  /** An operation did not go through. */
  predicate Failing(r: Result<InstallOutcome, InstallError>) {
    r.Err? && (r.error.ParentFailed? || r.error.StageFailed? || r.error.ReplaceFailed? || r.error.RenameFailed?)
  }

  /** The result is the verdict, or an operation failed where the request was not refused. */
  predicate VerdictOrFault(r: Result<InstallOutcome, InstallError>, verdict: Result<InstallOutcome, InstallError>) {
    r == verdict || ((verdict.Ok? || Failing(verdict)) && Failing(r))
  }

  /** What placing a skill did: the verdict was carried out, or an operation failed. */
  ghost predicate SkillPlaced(fs: FileSystem, m: Files, after: Files, src: Path, name: string, skillsRoot: Option<Path>,
                              overwrite: bool, stamp: string, r: Result<InstallOutcome, InstallError>) {
    && Closed(after)
    && VerdictOrFault(r, Verdict(m, name, skillsRoot, overwrite))
    && (NothingPlaced(r) ==> after == m)
    && (!NothingPlaced(r) ==>
          SkillDir(skillsRoot, name).Ok? && Placed(m, after, skillsRoot.value, name, stamp, overwrite, r))
    && (r.Ok? ==> CopiesFrom(fs, m, src, skillsRoot.value + [StagingName(name, stamp)], after, r.value.dest))
    && (SkillDir(skillsRoot, name).Ok? && Ready(m, skillsRoot)
        && WorksFrom(fs, m, src, skillsRoot.value + [StagingName(name, stamp)])
        ==> r == Verdict(m, name, skillsRoot, overwrite))
  }

  method PlaceSkill(fs: FileSystem, src: Path, name: string, skillsRoot: Option<Path>, overwrite: bool, stamp: string)
    returns (r: Result<InstallOutcome, InstallError>)
    requires Closed(fs.entries)
    modifies fs`entries, fs`clock
    ensures SkillPlaced(fs, old(fs.entries), fs.entries, src, name, skillsRoot, overwrite, stamp, r)
  {
    var dir := SkillDir(skillsRoot, name);
    if dir.Err? {
      return Err(dir.error);
    }
    var placed := Place(fs, src, skillsRoot.value, name, stamp, overwrite);
    match placed {
      case Ok(updated) => r := Ok(InstallOutcome(name, dir.value, updated));
      case Err(e) => r := Err(e);
    }
  }

  function NameFor(installAs: Option<string>, found: Frontmatter.Found): string {
    if installAs.Some? then installAs.value else found.name
  }

  /** The fetch went through, and what the skill is was decided on the fetched tree. */
  predicate Searched(found: Result<Frontmatter.Found, InstallError>) {
    found.Ok? || NoChoice(found.error)
  }

  /** What locating the skill tells about the fetched tree. */
  ghost predicate Located(fs: FileSystem, m: Files, fetched: Files, origin: Origin, select: Option<string>,
                          yaml: Frontmatter.Yaml, list: Frontmatter.Listing, temp: Path,
                          found: Result<Frontmatter.Found, InstallError>) {
    && Closed(fetched) && OnlyAt(m, fetched, temp + ["repo"])
    && (Searched(found) ==>
          && Fetched(fs, m, fetched, origin, temp + ["repo"])
          && found == Chosen(fetched, origin, temp + ["repo"], select, yaml, list))
    && (found.Ok? ==> temp + ["repo"] <= found.value.dir && IsRealDir(fetched, found.value.dir))
    && (!Searched(found) ==> found.error == NotADirectory || found.error == FetchFailed)
    && (found == Err(NotADirectory) <==> !ValidOrigin(m, origin))
    && (Fetchable(fs, m, origin, temp + ["repo"]) ==> Searched(found))
  }

  lemma {:induction false} NotFetched(fs: FileSystem, m: Files, fetched: Files, origin: Origin, select: Option<string>,
                                      yaml: Frontmatter.Yaml, list: Frontmatter.Listing, temp: Path, e: InstallError)
    requires Closed(fetched) && OnlyAt(m, fetched, temp + ["repo"])
    requires e == NotADirectory || e == FetchFailed
    requires e == NotADirectory <==> !ValidOrigin(m, origin)
    requires !Fetchable(fs, m, origin, temp + ["repo"])
    ensures Located(fs, m, fetched, origin, select, yaml, list, temp, Err(e))
  {
  }

  lemma {:induction false} FetchedAndSearched(fs: FileSystem, m: Files, fetched: Files, origin: Origin,
                                              select: Option<string>, yaml: Frontmatter.Yaml, list: Frontmatter.Listing,
                                              temp: Path, found: Result<Frontmatter.Found, InstallError>)
    requires Closed(fetched) && OnlyAt(m, fetched, temp + ["repo"]) && ValidOrigin(m, origin)
    requires Fetched(fs, m, fetched, origin, temp + ["repo"])
    requires found == Chosen(fetched, origin, temp + ["repo"], select, yaml, list)
    requires found.Ok? ==> temp + ["repo"] <= found.value.dir && IsRealDir(fetched, found.value.dir)
    requires found.Err? ==> NoChoice(found.error)
    ensures Located(fs, m, fetched, origin, select, yaml, list, temp, found)
  {
  }

  /** Fetch the source and choose the skill in it. */
  method Locate(fs: FileSystem, origin: Origin, select: Option<string>, yaml: Frontmatter.Yaml,
                list: Frontmatter.Listing, temp: Path)
    returns (r: Result<Frontmatter.Found, InstallError>)
    requires EmptyTemp(fs.entries, temp) && WellFormed(origin)
    modifies fs`entries, fs`clock
    ensures Located(fs, old(fs.entries), fs.entries, origin, select, yaml, list, temp, r)
  {
    ghost var m := fs.entries;
    var got := Fetch(fs, origin, temp);
    if got.Err? {
      NotFetched(fs, m, fs.entries, origin, select, yaml, list, temp, got.error);
      return Err(got.error);
    }
    r := PickSkill(fs.entries, origin, temp + ["repo"], select, yaml, list);
    FetchedAndSearched(fs, m, fs.entries, origin, select, yaml, list, temp, r);
  }

  /** The outcome of an installation when no operation fails after the search. */
  function Outcome(fetched: Files, found: Result<Frontmatter.Found, InstallError>, skillsRoot: Option<Path>,
                   overwrite: bool, installAs: Option<string>): Result<InstallOutcome, InstallError> {
    match found
    case Err(e) => Err(e)
    case Ok(f) => Verdict(fetched, NameFor(installAs, f), skillsRoot, overwrite)
  }

  /** What placing the located skill does: `m` is told about the skills directory,
      `fetched` about the skill. */
  ghost predicate Delivered(fs: FileSystem, m: Files, fetched: Files, after: Files, skillsRoot: Option<Path>,
                            overwrite: bool, installAs: Option<string>, stamp: string,
                            found: Result<Frontmatter.Found, InstallError>, r: Result<InstallOutcome, InstallError>) {
    && VerdictOrFault(r, Outcome(fetched, found, skillsRoot, overwrite, installAs))
    && (r.Ok? ==>
        CopiesFrom(fs, fetched, found.value.dir, skillsRoot.value + [StagingName(r.value.name, stamp)], after,
                   r.value.dest))
    && (found.Ok? && SkillDir(skillsRoot, NameFor(installAs, found.value)).Ok? && Ready(m, skillsRoot)
        && WorksFrom(fs, fetched, found.value.dir,
                     skillsRoot.value + [StagingName(NameFor(installAs, found.value), stamp)])
        ==> r == Outcome(fetched, found, skillsRoot, overwrite, installAs))
  }

  /** What the guarded part leaves, with the temporary directory still there. */
  ghost predicate GuardedPromise(fs: FileSystem, fetched: Files, placed: Files, skillsRoot: Option<Path>,
                                 overwrite: bool, installAs: Option<string>, stamp: string,
                                 found: Result<Frontmatter.Found, InstallError>,
                                 r: Result<InstallOutcome, InstallError>) {
    && Closed(placed)
    && (NothingPlaced(r) ==> placed == fetched)
    && (!NothingPlaced(r) ==>
          && found.Ok? && SkillDir(skillsRoot, NameFor(installAs, found.value)).Ok?
          && Placed(fetched, placed, skillsRoot.value, NameFor(installAs, found.value), stamp, overwrite, r))
    && Delivered(fs, fetched, fetched, placed, skillsRoot, overwrite, installAs, stamp, found, r)
  }

  lemma {:induction false} StoppedEarly(fs: FileSystem, m: Files, fetched: Files, origin: Origin,
                                        select: Option<string>, yaml: Frontmatter.Yaml, list: Frontmatter.Listing,
                                        temp: Path, skillsRoot: Option<Path>, overwrite: bool,
                                        installAs: Option<string>, stamp: string,
                                        found: Result<Frontmatter.Found, InstallError>)
    requires Located(fs, m, fetched, origin, select, yaml, list, temp, found) && found.Err?
    ensures GuardedPromise(fs, fetched, fetched, skillsRoot, overwrite, installAs, stamp, found, Err(found.error))
  {
  }

  lemma {:induction false} WentOn(fs: FileSystem, fetched: Files, placed: Files, skillsRoot: Option<Path>,
                                  overwrite: bool, installAs: Option<string>, stamp: string, f: Frontmatter.Found,
                                  r: Result<InstallOutcome, InstallError>)
    requires SkillPlaced(fs, fetched, placed, f.dir, NameFor(installAs, f), skillsRoot, overwrite, stamp, r)
    ensures GuardedPromise(fs, fetched, placed, skillsRoot, overwrite, installAs, stamp, Ok(f), r)
  {
  }

  /** The part of an installation that runs under the temporary directory's guard. */
  method InstallGuarded(fs: FileSystem, origin: Origin, skillsRoot: Option<Path>, overwrite: bool,
                        select: Option<string>, installAs: Option<string>, yaml: Frontmatter.Yaml,
                        list: Frontmatter.Listing, temp: Path, stamp: string)
    returns (r: Result<InstallOutcome, InstallError>, ghost fetched: Files,
             ghost found: Result<Frontmatter.Found, InstallError>)
    requires EmptyTemp(fs.entries, temp) && WellFormed(origin)
    modifies fs`entries, fs`clock
    ensures Located(fs, old(fs.entries), fetched, origin, select, yaml, list, temp, found)
    ensures GuardedPromise(fs, fetched, fs.entries, skillsRoot, overwrite, installAs, stamp, found, r)
  {
    var chosen := Locate(fs, origin, select, yaml, list, temp);
    fetched, found := fs.entries, chosen;
    if chosen.Err? {
      StoppedEarly(fs, old(fs.entries), fetched, origin, select, yaml, list, temp, skillsRoot, overwrite, installAs,
                   stamp, found);
      return Err(chosen.error), fetched, found;
    }
    r := PlaceSkill(fs, chosen.value.dir, NameFor(installAs, chosen.value), skillsRoot, overwrite, stamp);
    WentOn(fs, fetched, fs.entries, skillsRoot, overwrite, installAs, stamp, chosen.value, r);
  }

  /** What an installation did to the skills directory, told from the start. */
  ghost predicate Settled(m: Files, fetched: Files, after: Files, temp: Path, root: Path, name: string, stamp: string,
                          overwrite: bool, r: Result<InstallOutcome, InstallError>) {
    var dest, staging := root + [name], root + [StagingName(name, stamp)];
    && PlaceResult(m, after, dest, Exists(fetched, dest), overwrite,
                   if r.Ok? then Ok(r.value.wasUpdated) else Err(r.error))
    && InstallFrame(m, after, temp, root, staging, dest)
    && (Absent(m, staging) || ReachedStaging(r) ==> Absent(after, staging))
  }

  /** Whatever fails and whenever: the temporary directory is gone, no staging
      directory stays behind, and the destination is the old tree, a part of it,
      nothing, or the complete new tree. */
  ghost predicate InstallPromise(fs: FileSystem, m: Files, fetched: Files, after: Files, skillsRoot: Option<Path>,
                                 overwrite: bool, installAs: Option<string>, temp: Path, stamp: string,
                                 found: Result<Frontmatter.Found, InstallError>,
                                 r: Result<InstallOutcome, InstallError>) {
    && Closed(after) && Absent(after, temp)
    && (NothingPlaced(r) ==> TempFrame(m, after, temp))
    && (!NothingPlaced(r) ==>
          && found.Ok? && SkillDir(skillsRoot, NameFor(installAs, found.value)).Ok?
          && Settled(m, fetched, after, temp, skillsRoot.value, NameFor(installAs, found.value), stamp, overwrite, r))
    && Delivered(fs, m, fetched, after, skillsRoot, overwrite, installAs, stamp, found, r)
  }

  /** The temporary directory was made, `made` is the state right after, and the
      skill was looked for below it. */
  ghost predicate Looked(fs: FileSystem, m: Files, made: Files, fetched: Files, origin: Origin, select: Option<string>,
                         yaml: Frontmatter.Yaml, list: Frontmatter.Listing, temp: Path,
                         found: Result<Frontmatter.Found, InstallError>) {
    && OnlyAt(m, made, temp)
    && (found != Err(TempFailed) ==>
        EmptyTemp(made, temp) && Located(fs, made, fetched, origin, select, yaml, list, temp, found))
    && (fs.Faultless() && |temp| <= fs.depthLimit && Unblocked(m, temp) ==> found != Err(TempFailed))
  }

  lemma {:induction false} PromiseKept(fs: FileSystem, m: Files, fetched: Files, placed: Files,
                                       skillsRoot: Option<Path>, overwrite: bool, installAs: Option<string>, temp: Path,
                                       stamp: string, found: Result<Frontmatter.Found, InstallError>,
                                       r: Result<InstallOutcome, InstallError>)
    requires OnlyAt(m, fetched, temp) && (skillsRoot.Some? ==> Apart(temp, skillsRoot.value))
    requires GuardedPromise(fs, fetched, placed, skillsRoot, overwrite, installAs, stamp, found, r)
    ensures InstallPromise(fs, m, fetched, Without(placed, temp), skillsRoot, overwrite, installAs, temp, stamp, found,
                           r)
  {
    WithoutClosed(placed, temp);
    ReadyKept(m, fetched, temp, skillsRoot);
    if NothingPlaced(r) {
      EarlyFrame(m, fetched, temp);
    } else {
      SettledAfter(m, fetched, placed, temp, skillsRoot.value, NameFor(installAs, found.value), stamp, overwrite, r);
    }
  }

  lemma {:induction false} NoTemp(fs: FileSystem, m: Files, made: Files, origin: Origin, select: Option<string>,
                                  yaml: Frontmatter.Yaml, list: Frontmatter.Listing, temp: Path,
                                  skillsRoot: Option<Path>, overwrite: bool, installAs: Option<string>, stamp: string)
    requires Closed(made) && OnlyAt(m, made, temp) && Absent(made, temp)
    requires !(fs.Faultless() && |temp| <= fs.depthLimit && Unblocked(m, temp))
    ensures Looked(fs, m, made, m, origin, select, yaml, list, temp, Err(TempFailed))
    ensures InstallPromise(fs, m, m, made, skillsRoot, overwrite, installAs, temp, stamp, Err(TempFailed),
                           Err(TempFailed))
  {
    EarlyFrame(m, made, temp);
  }

  lemma {:induction false} LookedBelow(fs: FileSystem, m: Files, made: Files, fetched: Files, origin: Origin,
                                       select: Option<string>, yaml: Frontmatter.Yaml, list: Frontmatter.Listing,
                                       temp: Path, found: Result<Frontmatter.Found, InstallError>)
    requires OnlyAt(m, made, temp) && EmptyTemp(made, temp)
    requires Located(fs, made, fetched, origin, select, yaml, list, temp, found)
    ensures Looked(fs, m, made, fetched, origin, select, yaml, list, temp, found)
    ensures OnlyAt(m, fetched, temp)
  {
    OnlyAtParent(made, fetched, temp, "repo");
    OnlyAtTrans(m, made, fetched, temp);
  }

  /** An installation into a resolved skills directory. */
  method InstallAt(fs: FileSystem, origin: Origin, skillsRoot: Option<Path>, overwrite: bool, select: Option<string>,
                   installAs: Option<string>, yaml: Frontmatter.Yaml, list: Frontmatter.Listing, temp: Path,
                   stamp: string)
    returns (r: Result<InstallOutcome, InstallError>, ghost made: Files, ghost fetched: Files,
             ghost found: Result<Frontmatter.Found, InstallError>)
    requires Closed(fs.entries) && WellFormed(origin)
    requires skillsRoot.Some? ==> Apart(temp, skillsRoot.value)
    modifies fs`entries, fs`clock
    ensures Looked(fs, old(fs.entries), made, fetched, origin, select, yaml, list, temp, found)
    ensures InstallPromise(fs, old(fs.entries), fetched, fs.entries, skillsRoot, overwrite, installAs, temp, stamp,
                           found, r)
  {
    ghost var m := fs.entries;
    var ok := MakeTemp(fs, temp);
    made := fs.entries;
    if !ok {
      NoTemp(fs, m, made, origin, select, yaml, list, temp, skillsRoot, overwrite, installAs, stamp);
      return Err(TempFailed), made, m, Err(TempFailed);
    }
    r, fetched, found := InstallGuarded(fs, origin, skillsRoot, overwrite, select, installAs, yaml, list, temp, stamp);
    LookedBelow(fs, m, made, fetched, origin, select, yaml, list, temp, found);
    PromiseKept(fs, m, fetched, fs.entries, skillsRoot, overwrite, installAs, temp, stamp, found, r);
    fs.Discard(temp);
  }

  method Install(fs: FileSystem, origin: Origin, target: InstallTarget, home: Option<Path>, overwrite: bool,
                 select: Option<string>, installAs: Option<string>, yaml: Frontmatter.Yaml, list: Frontmatter.Listing,
                 temp: Path, stamp: string)
    returns (r: Result<InstallOutcome, InstallError>, ghost made: Files, ghost fetched: Files,
             ghost found: Result<Frontmatter.Found, InstallError>)
    requires Closed(fs.entries) && WellFormed(origin)
    requires SkillsRoot(target, home).Some? ==> Apart(temp, SkillsRoot(target, home).value)
    modifies fs`entries, fs`clock
    ensures Looked(fs, old(fs.entries), made, fetched, origin, select, yaml, list, temp, found)
    ensures InstallPromise(fs, old(fs.entries), fetched, fs.entries, SkillsRoot(target, home), overwrite, installAs,
                           temp, stamp, found, r)
  {
    r, made, fetched, found :=
      InstallAt(fs, origin, SkillsRoot(target, home), overwrite, select, installAs, yaml, list, temp, stamp);
  }

  lemma {:induction false} OnlyAtTrans(m: Files, mid: Files, after: Files, temp: Path)
    requires OnlyAt(m, mid, temp) && OnlyAt(mid, after, temp)
    ensures OnlyAt(m, after, temp)
  {
  }

  lemma {:induction false} SettledAfter(m: Files, fetched: Files, placed: Files, temp: Path, root: Path, name: string,
                                        stamp: string, overwrite: bool, r: Result<InstallOutcome, InstallError>)
    requires OnlyAt(m, fetched, temp) && Apart(temp, root)
    requires Placed(fetched, placed, root, name, stamp, overwrite, r)
    ensures Settled(m, fetched, Without(placed, temp), temp, root, name, stamp, overwrite, r)
    ensures forall p :: At(Without(placed, temp), root + [name], p) == At(placed, root + [name], p)
  {
    var dest, staging := root + [name], root + [StagingName(name, stamp)];
    var after, result := Without(placed, temp), if r.Ok? then Ok(r.value.wasUpdated) else Err(r.error);
    ApartChild(temp, root, name);
    ApartChild(temp, root, StagingName(name, stamp));
    WithoutKeeps(placed, temp, dest);
    OnlyAtKeeps(m, fetched, temp, dest);
    OnlyAtKeeps(m, fetched, temp, staging);
    PlaceTrans(m, fetched, placed, dest, Exists(fetched, dest), overwrite, result);
    PlaceThen(m, placed, after, dest, Exists(fetched, dest), overwrite, result);
    WholeFrame(m, fetched, placed, temp, root, staging, dest);
    SameTreeAt(placed, after, dest);
    if Absent(m, staging) {
      AbsentKept(m, fetched, staging);
    }
  }

  // ---------------------------------------------- what a local install yields

  /** The source tree without `.git` entries, symlinks and special files, at any depth. */
  function PrunedAt(m: Files, root: Path, p: Path): Option<Entry> {
    var e := At(m, root, p);
    if ".git" !in p && e.Some? && (e.value.File? || e.value.Dir?) then e else None
  }

  /** A copy holds nothing that copying it again would leave out. */
  lemma {:induction false} CopyOfACopy(m: Files, now: Files, readable: Path -> bool, src: Path, dst: Path)
    requires forall p :: At(now, dst, p) == CopiedAt(m, readable, src, p)
    ensures forall p :: PrunedAt(now, dst, p) == At(now, dst, p)
  {
    forall p ensures PrunedAt(now, dst, p) == At(now, dst, p) {
      assert At(now, dst, p) == CopiedAt(m, readable, src, p);
    }
  }

  lemma {:induction false} VisibleAppend(readable: Path -> bool, root: Path, a: Path, b: Path)
    ensures Visible(readable, root, a + b) <==> Visible(readable, root, a) && Visible(readable, root + a, b)
  {
    forall k | 0 < k <= |a| ensures root + (a + b)[..k] == root + a[..k] {
      assert (a + b)[..k] == a[..k];
    }
    forall k | 0 < k <= |b| ensures root + (a + b)[..|a| + k] == root + a + b[..k] {
      assert (a + b)[..|a| + k] == a + b[..k];
    }
    if Visible(readable, root, a + b) {
      forall k | 0 < k <= |a| ensures readable(root + a[..k]) {
        assert readable(root + (a + b)[..k]);
      }
      forall k | 0 < k <= |b| ensures readable(root + a + b[..k]) {
        assert readable(root + (a + b)[..|a| + k]);
      }
    }
    if Visible(readable, root, a) && Visible(readable, root + a, b) {
      forall k | 0 < k <= |a + b| ensures readable(root + (a + b)[..k]) {
        if k <= |a| {
          assert readable(root + a[..k]);
        } else {
          assert readable(root + a + b[..k - |a|]);
          assert root + (a + b)[..|a| + (k - |a|)] == root + a + b[..k - |a|];
        }
      }
    }
  }

  lemma {:induction false} AtAppend(m: Files, root: Path, a: Path, b: Path)
    ensures At(m, root, a + b) == At(m, root + a, b)
  {
    assert root + (a + b) == root + a + b;
  }

  /** What the second copy of a local install carries over. */
  lemma {:induction false} SecondCopy(m: Files, fetched: Files, readable: Path -> bool, path: Path, clone: Path,
                                      rel: Path, p: Path)
    requires forall q :: At(fetched, clone, q) == CopiedAt(m, readable, path, q)
    requires IsDir(fetched, clone + rel)
    ensures CopiedAt(fetched, readable, clone + rel, p) ==
            if !(Visible(readable, path + rel, p) && Visible(readable, clone + rel, p)) then None
            else PrunedAt(m, path + rel, p)
  {
    assert At(fetched, clone, rel) == CopiedAt(m, readable, path, rel);
    assert At(fetched, clone, rel + p) == CopiedAt(m, readable, path, rel + p);
    AtAppend(fetched, clone, rel, p);
    AtAppend(m, path, rel, p);
    VisibleAppend(readable, path, rel, p);
    assert ".git" in rel + p <==> ".git" in rel || ".git" in p;
  }

  /** Copying a local source to the clone and the skill from there to its place
      is one prune of the skill's own directory, exactly when everything to be
      kept could be read both times; what could not is dropped without an error. */
  lemma {:induction false} LocalInstallIsOnePruneIff(m: Files, fetched: Files, readable: Path -> bool, path: Path,
                                                     clone: Path, rel: Path)
    requires forall q :: At(fetched, clone, q) == CopiedAt(m, readable, path, q)
    requires IsDir(fetched, clone + rel)
    ensures (forall p :: CopiedAt(fetched, readable, clone + rel, p) == PrunedAt(m, path + rel, p))
            <==> (forall p :: PrunedAt(m, path + rel, p).Some? ==>
                                Visible(readable, path + rel, p) && Visible(readable, clone + rel, p))
  {
    forall p
      ensures CopiedAt(fetched, readable, clone + rel, p) == PrunedAt(m, path + rel, p)
              <==> (PrunedAt(m, path + rel, p).Some? ==>
                    Visible(readable, path + rel, p) && Visible(readable, clone + rel, p))
    {
      SecondCopy(m, fetched, readable, path, clone, rel, p);
    }
  }
}
