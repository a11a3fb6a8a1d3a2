/** The fenced block at the head of a `SKILL.md`, and finding the skills below a
    directory (crates/bitrouter-skills/src/frontmatter.rs). */
module Frontmatter {
  import opened Wrappers
  import opened Strings
  import opened FileTree

  // ------------------------------------------------------------------- lines

  /** The lines of `s`, each with its newline; only the last may lack one. */
  function SplitInclusive(s: string): seq<string>
    decreases |s|
  {
    if s == "" then []
    else
      var i := Find(s, '\n');
      if i < |s| then [s[..i + 1]] + SplitInclusive(s[i + 1..]) else [s]
  }

  function StripLast(s: string, c: char): string {
    if s != "" && s[|s| - 1] == c then s[..|s| - 1] else s
  }

  predicate IsFence(line: string) {
    StripLast(StripLast(line, '\n'), '\r') == "---"
  }

  /** What follows the opening fence line. */
  function AfterOpening(content: string): Option<string> {
    if "---\n" <= content then Some(content[4..])
    else if "---\r\n" <= content then Some(content[5..])
    else None
  }

  /** The lines before the first fence, if there is one. */
  function UpToFence(lines: seq<string>): Option<string> {
    if lines == [] then None
    else if IsFence(lines[0]) then Some("")
    else
      match UpToFence(lines[1..])
      case Some(b) => Some(lines[0] + b)
      case None => None
  }

  function Block(content: string): Option<string> {
    match AfterOpening(content)
    case Some(rest) => UpToFence(SplitInclusive(rest))
    case None => None
  }

  lemma {:induction false} ConsParts<T>(x: T, rest: seq<T>)
    ensures ([x] + rest)[0] == x && ([x] + rest)[1..] == rest
  {
  }

  lemma {:induction false} FirstLine(s: string)
    requires s != ""
    ensures var line := SplitInclusive(s)[0];
            && line <= s && SplitInclusive(s)[1..] == SplitInclusive(s[|line|..])
            && (CompleteLine(line) || (line == s && '\n' !in s))
  {
    var i := Find(s, '\n');
    if i < |s| {
      ConsParts(s[..i + 1], SplitInclusive(s[i + 1..]));
      assert s[..i + 1][..i] == s[..i];
    }
  }

  lemma {:induction false} SplitInclusiveConcat(s: string)
    ensures Concat(SplitInclusive(s)) == s
    decreases |s|
  {
    if s != "" {
      FirstLine(s);
      var lines := SplitInclusive(s);
      var line, rest := lines[0], s[|lines[0]|..];
      SplitInclusiveConcat(rest);
      ConcatCons(line, lines[1..]);
      assert lines == [line] + lines[1..];
      assert s == line + rest;
    }
  }

  lemma {:induction false} FenceStop(lines: seq<string>, k: nat)
    requires k < |lines| && IsFence(lines[k])
    requires forall j :: 0 <= j < k ==> !IsFence(lines[j])
    ensures UpToFence(lines) == Some(Concat(lines[..k]))
    decreases k
  {
    if k > 0 {
      FenceStop(lines[1..], k - 1);
      assert lines[1..][..k - 1] == lines[1..k] == lines[..k][1..];
    } else {
      assert lines[..0] == [];
    }
  }

  lemma {:induction false} NoFenceNoBlock(lines: seq<string>)
    requires forall j :: 0 <= j < |lines| ==> !IsFence(lines[j])
    ensures UpToFence(lines) == None
  {
    if lines != [] {
      NoFenceNoBlock(lines[1..]);
    }
  }

  lemma {:induction false} CutAtFence(rest: string, lines: seq<string>, k: nat)
    requires Concat(lines) == rest && k < |lines| && IsFence(lines[k])
    requires forall j :: 0 <= j < k ==> !IsFence(lines[j])
    ensures |Concat(lines[..k])| <= |rest|
    ensures UpToFence(lines) == Some(rest[..|Concat(lines[..k])|])
  {
    FenceStop(lines, k);
    assert lines == lines[..k] + lines[k..];
    ConcatAppend(lines[..k], lines[k..]);
  }

  /** The lines before `i` hold no fence and are `offset` characters long. */
  ghost predicate Scanned(lines: seq<string>, i: nat, offset: nat) {
    i <= |lines| && offset == |Concat(lines[..i])| && forall j :: 0 <= j < i ==> !IsFence(lines[j])
  }

  lemma {:induction false} NextLine(lines: seq<string>, i: nat, offset: nat)
    requires i < |lines| && Scanned(lines, i, offset) && !IsFence(lines[i])
    ensures Scanned(lines, i + 1, offset + |lines[i]|)
  {
    ConcatTakeLength(lines, i);
  }

  /** Scans the lines after the opening fence, adding up their lengths, and cuts
      the text at the first fence. */
  method ScanLines(rest: string) returns (r: Option<string>)
    ensures r == UpToFence(SplitInclusive(rest))
  {
    var lines := SplitInclusive(rest);
    SplitInclusiveConcat(rest);
    var offset: nat := 0;
    for i := 0 to |lines|
      invariant Scanned(lines, i, offset)
    {
      if IsFence(lines[i]) {
        CutAtFence(rest, lines, i);
        return Some(rest[..offset]);
      }
      NextLine(lines, i, offset);
      offset := offset + |lines[i]|;
    }
    NoFenceNoBlock(lines);
    return None;
  }

  method ExtractFrontmatterBlock(content: string) returns (r: Option<string>)
    ensures r == Block(content)
  {
    var rest := AfterOpening(content);
    if rest.None? {
      return None;
    }
    r := ScanLines(rest.value);
  }

  // ------------------------------------------------------- what a block is

  /** A line with its newline, and no other. */
  predicate CompleteLine(line: string) {
    line != "" && line[|line| - 1] == '\n' && '\n' !in line[..|line| - 1]
  }

  predicate PlainLines(lines: seq<string>) {
    forall k :: 0 <= k < |lines| ==> CompleteLine(lines[k]) && !IsFence(lines[k])
  }

  /** A text that starts with a closing fence line: three dashes, at most one
      carriage return, then a newline or the end. */
  predicate Closes(tail: string) {
    tail == "---" || tail == "---\r" || "---\n" <= tail || "---\r\n" <= tail
  }

  /** `rest` is the lines `b`, none of them a fence, then a closing fence and anything else. */
  ghost predicate Fenced(rest: string, b: string) {
    exists lines, tail :: IsFenced(rest, b, lines, tail)
  }

  ghost predicate IsFenced(rest: string, b: string, lines: seq<string>, tail: string) {
    PlainLines(lines) && Concat(lines) == b && Closes(tail) && rest == b + tail
  }

  /** `content` is an opening fence line and a fenced block `b`. */
  ghost predicate HasBlock(content: string, b: string) {
    || ("---\n" <= content && Fenced(content[4..], b))
    || ("---\r\n" <= content && Fenced(content[5..], b))
  }

  lemma {:induction false} FenceForms(line: string)
    ensures IsFence(line) <==> line in ["---", "---\r", "---\n", "---\r\n"]
  {
    StripForms(line, '\n');
    StripForms(StripLast(line, '\n'), '\r');
    assert "---" + "\r" == "---\r" && "---" + "\n" == "---\n" && "---\r" + "\n" == "---\r\n";
  }

  lemma {:induction false} StripForms(s: string, c: char)
    ensures s == StripLast(s, c) || s == StripLast(s, c) + [c]
  {
  }

  lemma {:induction false} SplitComplete(line: string, t: string)
    requires CompleteLine(line)
    ensures SplitInclusive(line + t) == [line] + SplitInclusive(t)
  {
    var n := |line| - 1;
    assert line + t == line[..n] + ['\n'] + t;
    FindAppend(line[..n], '\n', t);
    assert (line + t)[..n + 1] == line && (line + t)[n + 1..] == t;
  }

  lemma {:induction false} SplitIncomplete(s: string)
    requires s != "" && '\n' !in s
    ensures SplitInclusive(s) == [s]
  {
    assert forall k :: 0 <= k < |s| ==> s[k] in s;
  }

  lemma {:induction false} SplitPlain(lines: seq<string>, tail: string)
    requires PlainLines(lines)
    ensures SplitInclusive(Concat(lines) + tail) == lines + SplitInclusive(tail)
  {
    if lines == [] {
      assert Concat(lines) + tail == tail;
    } else {
      var more := Concat(lines[1..]);
      SplitPlain(lines[1..], tail);
      Assoc(lines[0], more, tail);
      SplitComplete(lines[0], more + tail);
      Assoc([lines[0]], lines[1..], SplitInclusive(tail));
      assert lines == [lines[0]] + lines[1..];
    }
  }

  lemma {:induction false} FenceLineFirst(line: string, tail: string)
    requires CompleteLine(line) && line <= tail
    ensures SplitInclusive(tail) != [] && SplitInclusive(tail)[0] == line
  {
    assert tail == line + tail[|line|..];
    SplitComplete(line, tail[|line|..]);
  }

  lemma {:induction false} ClosingLine(tail: string)
    requires Closes(tail)
    ensures SplitInclusive(tail) != [] && IsFence(SplitInclusive(tail)[0])
  {
    if "---\n" <= tail {
      FenceLineFirst("---\n", tail);
    } else if "---\r\n" <= tail {
      FenceLineFirst("---\r\n", tail);
    } else {
      SplitIncomplete(tail);
    }
    FenceForms(SplitInclusive(tail)[0]);
  }

  lemma {:induction false} FenceCloses(s: string)
    requires s != "" && IsFence(SplitInclusive(s)[0])
    ensures Closes(s)
  {
    FirstLine(s);
    FenceForms(SplitInclusive(s)[0]);
  }

  lemma {:induction false} ScanFinds(rest: string)
    requires UpToFence(SplitInclusive(rest)).Some?
    ensures Fenced(rest, UpToFence(SplitInclusive(rest)).value)
    decreases |rest|
  {
    var lines := SplitInclusive(rest);
    var line := lines[0];
    FirstLine(rest);
    if IsFence(line) {
      FenceCloses(rest);
      assert rest == "" + rest;
      assert IsFenced(rest, "", [], rest);
    } else {
      var more := rest[|line|..];
      assert lines[1..] == SplitInclusive(more) && rest == line + more;
      ScanFinds(more);
      var b := UpToFence(SplitInclusive(more)).value;
      var init, tail :| IsFenced(more, b, init, tail);
      FencedCons(line, more, b, init, tail);
    }
  }

  lemma {:induction false} FencedCons(line: string, more: string, b: string, init: seq<string>, tail: string)
    requires CompleteLine(line) && !IsFence(line) && IsFenced(more, b, init, tail)
    ensures Fenced(line + more, line + b)
  {
    Assoc(line, b, tail);
    assert ([line] + init)[1..] == init;
    assert IsFenced(line + more, line + b, [line] + init, tail);
  }

  lemma {:induction false} ScanIsFenced(rest: string, b: string)
    ensures UpToFence(SplitInclusive(rest)) == Some(b) <==> Fenced(rest, b)
  {
    if UpToFence(SplitInclusive(rest)) == Some(b) {
      ScanFinds(rest);
    }
    if lines, tail :| IsFenced(rest, b, lines, tail) {
      SplitPlain(lines, tail);
      ClosingLine(tail);
      var all := lines + SplitInclusive(tail);
      FenceStop(all, |lines|);
      assert all[..|lines|] == lines;
    }
  }

  lemma {:induction false} OneOpening(content: string)
    ensures !("---\n" <= content && "---\r\n" <= content)
  {
    assert "---\n"[3] != "---\r\n"[3];
  }

  /** The extracted block is the one fenced block of the text: there is at most
      one, and none exactly when a fence is missing. */
  lemma {:induction false} BlockIsTheFencedBlock(content: string, b: string)
    ensures Block(content) == Some(b) <==> HasBlock(content, b)
  {
    OneOpening(content);
    if "---\n" <= content {
      ScanIsFenced(content[4..], b);
    } else if "---\r\n" <= content {
      ScanIsFenced(content[5..], b);
    }
  }

  lemma {:induction false} FencedBlockIsUnique(content: string, b: string, c: string)
    requires HasBlock(content, b) && HasBlock(content, c)
    ensures b == c
  {
    BlockIsTheFencedBlock(content, b);
    BlockIsTheFencedBlock(content, c);
  }

  lemma {:induction false} LinesOfBlock(b: string)
    requires b == "" || b[|b| - 1] == '\n'
    ensures forall k :: 0 <= k < |SplitInclusive(b)| ==> CompleteLine(SplitInclusive(b)[k])
    decreases |b|
  {
    if b != "" {
      FirstLine(b);
      var line := SplitInclusive(b)[0];
      assert b[|b| - 1] in b;
      LinesOfBlock(b[|line|..]);
    }
  }

  /** Wrapping any fence-free block of whole lines and extracting gives it back,
      whatever follows, with either line ending on either fence. */
  lemma {:induction false} WrappedBlockComesBack(b: string, opening: string, closing: string)
    requires b == "" || b[|b| - 1] == '\n'
    requires forall k :: 0 <= k < |SplitInclusive(b)| ==> !IsFence(SplitInclusive(b)[k])
    requires opening == "---\n" || opening == "---\r\n"
    requires Closes(closing)
    ensures Block(opening + b + closing) == Some(b)
  {
    LinesOfBlock(b);
    SplitInclusiveConcat(b);
    assert IsFenced(b + closing, b, SplitInclusive(b), closing);
    Assoc(opening, b, closing);
    HasBlockBehind(opening, b + closing, b);
    BlockIsTheFencedBlock(opening + (b + closing), b);
  }

  lemma {:induction false} HasBlockBehind(opening: string, rest: string, b: string)
    requires opening == "---\n" || opening == "---\r\n"
    requires Fenced(rest, b)
    ensures HasBlock(opening + rest, b)
  {
    Opened(opening, rest);
  }

  lemma {:induction false} Opened(opening: string, rest: string)
    ensures opening <= opening + rest && (opening + rest)[|opening|..] == rest
  {
  }

  // ------------------------------------------------------ finding the skills

  /** A skill found below a search root: its directory and its declared name. */
  datatype Found = Found(dir: Path, name: string)

  type Yaml = string -> Option<string>

  /** The names of the entries of a directory, in the order they are read. */
  type Listing = Path -> seq<string>

  /** The skill whose `SKILL.md` is found in `dir`, if that parses. Links are
      followed, in `dir` as well as at the file itself. */
  function SkillIn(m: Files, yaml: Yaml, dir: Path): Option<Found> {
    var path := Real(m, dir + ["SKILL.md"]);
    if path.Some? && path.value in m && m[path.value].File? && Block(m[path.value].content).Some?
       && yaml(Block(m[path.value].content).value).Some?
    then Some(Found(dir, yaml(Block(m[path.value].content).value).value))
    else None
  }

  function SearchRoots(root: Path): seq<Path> {
    [root, root + ["skills"], root + [".claude", "skills"]]
  }

  /** The directories to look into below one search root; a link there is followed. */
  function InBase(m: Files, list: Listing, base: Path): seq<Path> {
    if IsRealDir(m, base) then Inside(base, list(Real(m, base).value)) else []
  }

  /** Each search root, and then everything in it. */
  function SearchDirs(m: Files, list: Listing, roots: seq<Path>): seq<Path> {
    if roots == [] then []
    else
      var base := roots[|roots| - 1];
      SearchDirs(m, list, roots[..|roots| - 1]) + [base] + InBase(m, list, base)
  }

  function Inside(base: Path, names: seq<string>): seq<Path> {
    seq(|names|, i requires 0 <= i < |names| => base + [names[i]])
  }

  function Keep(found: Option<Found>): seq<Found> {
    if found.Some? then [found.value] else []
  }

  /** The skills of the directories, each directory counted once. */
  function SkillsOf(m: Files, yaml: Yaml, dirs: seq<Path>): seq<Found> {
    if dirs == [] then []
    else
      var init, dir := dirs[..|dirs| - 1], dirs[|dirs| - 1];
      SkillsOf(m, yaml, init) + (if dir in init then [] else Keep(SkillIn(m, yaml, dir)))
  }

  function Discovered(m: Files, yaml: Yaml, list: Listing, root: Path): seq<Found> {
    SkillsOf(m, yaml, SearchDirs(m, list, SearchRoots(root)))
  }

  method Push(m: Files, yaml: Yaml, dir: Path, seen: set<Path>, found: seq<Found>, ghost dirs: seq<Path>)
    returns (nowSeen: set<Path>, nowFound: seq<Found>)
    requires seen == (set d | d in dirs) && found == SkillsOf(m, yaml, dirs)
    ensures nowSeen == (set d | d in dirs + [dir]) && nowFound == SkillsOf(m, yaml, dirs + [dir])
  {
    assert (dirs + [dir])[..|dirs|] == dirs;
    if dir in seen {
      return seen, found;
    }
    return seen + {dir}, found + Keep(SkillIn(m, yaml, dir));
  }

  /** One search root: the root itself, then each of its entries, when it can be listed. */
  method PushBase(m: Files, yaml: Yaml, list: Listing, base: Path, seen: set<Path>, found: seq<Found>,
                  ghost dirs: seq<Path>)
    returns (nowSeen: set<Path>, nowFound: seq<Found>)
    requires seen == (set d | d in dirs) && found == SkillsOf(m, yaml, dirs)
    ensures nowSeen == (set d | d in dirs + [base] + InBase(m, list, base))
    ensures nowFound == SkillsOf(m, yaml, dirs + [base] + InBase(m, list, base))
  {
    nowSeen, nowFound := Push(m, yaml, base, seen, found, dirs);
    ghost var done := dirs + [base];
    if !IsRealDir(m, base) {
      assert done + [] == done;
      return;
    }
    var names := list(Real(m, base).value);
    for i := 0 to |names|
      invariant done == dirs + [base] + Inside(base, names[..i])
      invariant nowSeen == (set d | d in done) && nowFound == SkillsOf(m, yaml, done)
    {
      InsideNext(dirs + [base], base, names, i);
      nowSeen, nowFound := Push(m, yaml, base + [names[i]], nowSeen, nowFound, done);
      done := done + [base + [names[i]]];
    }
    assert names[..|names|] == names;
  }

  /** Walks the search roots and their entries, remembering what was visited. */
  method DiscoverAllSkills(m: Files, yaml: Yaml, list: Listing, root: Path) returns (found: seq<Found>)
    ensures found == Discovered(m, yaml, list, root)
  {
    var seen: set<Path> := {};
    found := [];
    var roots := SearchRoots(root);
    for b := 0 to |roots|
      invariant seen == (set d | d in SearchDirs(m, list, roots[..b]))
      invariant found == SkillsOf(m, yaml, SearchDirs(m, list, roots[..b]))
    {
      NextSearchRoot(m, list, roots, b);
      seen, found := PushBase(m, yaml, list, roots[b], seen, found, SearchDirs(m, list, roots[..b]));
    }
    assert roots[..|roots|] == roots;
  }

  lemma {:induction false} NextSearchRoot(m: Files, list: Listing, roots: seq<Path>, b: nat)
    requires b < |roots|
    ensures SearchDirs(m, list, roots[..b + 1]) ==
            SearchDirs(m, list, roots[..b]) + [roots[b]] + InBase(m, list, roots[b])
  {
    assert roots[..b + 1][..b] == roots[..b];
  }

  lemma {:induction false} InsideNext(before: seq<Path>, base: Path, names: seq<string>, i: nat)
    requires i < |names|
    ensures before + Inside(base, names[..i]) + [base + [names[i]]] == before + Inside(base, names[..i + 1])
  {
    assert Inside(base, names[..i + 1]) == Inside(base, names[..i]) + [base + [names[i]]];
  }

  /** The skills found are those of the directories searched, all of them, and
      no directory gives two. */
  lemma {:induction false} SkillsOfExactly(m: Files, yaml: Yaml, dirs: seq<Path>)
    ensures forall f :: f in SkillsOf(m, yaml, dirs) <==> f.dir in dirs && SkillIn(m, yaml, f.dir) == Some(f)
    ensures forall i, j :: 0 <= i < j < |SkillsOf(m, yaml, dirs)| ==>
                             SkillsOf(m, yaml, dirs)[i].dir != SkillsOf(m, yaml, dirs)[j].dir
  {
    if dirs != [] {
      var n := |dirs| - 1;
      SkillsOfExactly(m, yaml, dirs[..n]);
      var earlier := SkillsOf(m, yaml, dirs[..n]);
      SkillInHere(m, yaml, dirs[n]);
      forall f ensures f in SkillsOf(m, yaml, dirs) <==> f.dir in dirs && SkillIn(m, yaml, f.dir) == Some(f) {
        LastOrEarlier(dirs, f.dir);
        assert f in SkillsOf(m, yaml, dirs) <==>
               f in earlier || (dirs[n] !in dirs[..n] && SkillIn(m, yaml, dirs[n]) == Some(f));
      }
      forall i, j | 0 <= i < j < |SkillsOf(m, yaml, dirs)|
        ensures SkillsOf(m, yaml, dirs)[i].dir != SkillsOf(m, yaml, dirs)[j].dir
      {
        assert earlier[i] in earlier;
      }
    }
  }

  lemma {:induction false} LastOrEarlier(dirs: seq<Path>, d: Path)
    requires dirs != []
    ensures d in dirs <==> d in dirs[..|dirs| - 1] || d == dirs[|dirs| - 1]
  {
    InitAndLast(dirs);
  }

  lemma {:induction false} SkillInHere(m: Files, yaml: Yaml, dir: Path)
    ensures SkillIn(m, yaml, dir).Some? ==> SkillIn(m, yaml, dir).value.dir == dir
    ensures Closed(m) && SkillIn(m, yaml, dir).Some? ==> IsRealDir(m, dir)
  {
    if Closed(m) && SkillIn(m, yaml, dir).Some? {
      RootIsDir(m, dir + ["SKILL.md"]);
      LookupSplits(m, dir, "SKILL.md");
    }
  }

  // ------------------------------------------------- where skills are looked for

  /** A listing gives the entries that can be read, each of them, and no others. */
  ghost predicate Lists(m: Files, readable: Path -> bool, list: Listing) {
    forall d, n :: IsDir(m, d) ==> (n in list(d) <==> n in Children(m, d) && readable(d + [n]))
  }

  /** A search root, or a readable entry of the directory that one leads to. */
  predicate Searched(m: Files, readable: Path -> bool, root: Path, dir: Path) {
    || dir in SearchRoots(root)
    || (dir != [] && dir[..|dir| - 1] in SearchRoots(root) && EntryOf(m, readable, dir[..|dir| - 1], dir[|dir| - 1]))
  }

  predicate EntryOf(m: Files, readable: Path -> bool, base: Path, n: string) {
    IsRealDir(m, base) && n in Children(m, Real(m, base).value) && readable(Real(m, base).value + [n])
  }

  lemma {:induction false} InsideIff(base: Path, names: seq<string>, dir: Path)
    ensures dir in Inside(base, names) <==> dir != [] && dir[..|dir| - 1] == base && dir[|dir| - 1] in names
  {
    if dir in Inside(base, names) {
      var i :| 0 <= i < |names| && Inside(base, names)[i] == dir;
      SnocParts(base, names[i]);
    }
    if dir != [] && dir[..|dir| - 1] == base && dir[|dir| - 1] in names {
      InitAndLast(dir);
      var i :| 0 <= i < |names| && names[i] == dir[|dir| - 1];
      assert Inside(base, names)[i] == dir;
    }
  }

  lemma {:induction false} SnocParts(base: Path, n: string)
    ensures (base + [n])[..|base + [n]| - 1] == base && (base + [n])[|base + [n]| - 1] == n
  {
  }

  lemma {:induction false} InBaseIff(m: Files, readable: Path -> bool, list: Listing, base: Path, dir: Path)
    requires Lists(m, readable, list)
    ensures dir in InBase(m, list, base) <==>
            dir != [] && dir[..|dir| - 1] == base && EntryOf(m, readable, base, dir[|dir| - 1])
  {
    if IsRealDir(m, base) {
      InsideIff(base, list(Real(m, base).value), dir);
    }
  }

  lemma {:induction false} SearchDirsIff(m: Files, readable: Path -> bool, list: Listing, roots: seq<Path>, dir: Path)
    requires Lists(m, readable, list)
    ensures dir in SearchDirs(m, list, roots) <==>
            || dir in roots
            || (dir != [] && dir[..|dir| - 1] in roots && EntryOf(m, readable, dir[..|dir| - 1], dir[|dir| - 1]))
  {
    if roots != [] {
      var base := roots[|roots| - 1];
      SearchDirsIff(m, readable, list, roots[..|roots| - 1], dir);
      InBaseIff(m, readable, list, base, dir);
      LastOrEarlier(roots, dir);
      if dir != [] {
        LastOrEarlier(roots, dir[..|dir| - 1]);
      }
    }
  }

  /** Discovery finds a skill exactly when it lies in a searched directory. */
  lemma {:induction false} DiscoveredIff(m: Files, yaml: Yaml, readable: Path -> bool, list: Listing, root: Path,
                                         f: Found)
    requires Lists(m, readable, list)
    ensures f in Discovered(m, yaml, list, root) <==>
            Searched(m, readable, root, f.dir) && SkillIn(m, yaml, f.dir) == Some(f)
  {
    SkillsOfExactly(m, yaml, SearchDirs(m, list, SearchRoots(root)));
    SearchDirsIff(m, readable, list, SearchRoots(root), f.dir);
  }

  lemma {:induction false} SearchDirsBelow(m: Files, list: Listing, roots: seq<Path>, root: Path)
    requires forall k :: 0 <= k < |roots| ==> root <= roots[k]
    ensures forall d :: d in SearchDirs(m, list, roots) ==> root <= d
  {
    if roots != [] {
      SearchDirsBelow(m, list, roots[..|roots| - 1], root);
      var base := roots[|roots| - 1];
      if IsRealDir(m, base) {
        var names := list(Real(m, base).value);
        forall i | 0 <= i < |names| ensures root <= base + [names[i]] {
          PrefixOfSnoc(root, base, names[i]);
        }
      }
    }
  }

  lemma {:induction false} SearchRootsBelow(root: Path)
    ensures forall k :: 0 <= k < |SearchRoots(root)| ==> root <= SearchRoots(root)[k]
  {
  }

  /** Every discovered skill is named by a path at or below the search root that
      leads to a directory, and a `SKILL.md` with a readable block is found there. */
  lemma {:induction false} DiscoveredBelow(m: Files, yaml: Yaml, list: Listing, root: Path, f: Found)
    requires Closed(m) && f in Discovered(m, yaml, list, root)
    ensures root <= f.dir && IsRealDir(m, f.dir) && SkillIn(m, yaml, f.dir) == Some(f)
  {
    var roots := SearchRoots(root);
    SkillsOfExactly(m, yaml, SearchDirs(m, list, roots));
    SearchRootsBelow(root);
    SearchDirsBelow(m, list, roots, root);
    SkillInHere(m, yaml, f.dir);
  }
}
