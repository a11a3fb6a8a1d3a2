/** Parsing a skill source string, and its conversion to and from the registry's
    wire form (crates/bitrouter-skills/src/source.rs). */
module SkillSource {
  import opened Wrappers
  import opened Strings

  // ---------------------------------------------------------- string splitting

  /** The Unicode white space that `trim` removes. */
  predicate IsSpace(c: char) {
    var n := c as int;
    || 0x09 <= n <= 0x0d || n == 0x20 || n == 0x85 || n == 0xa0 || n == 0x1680
    || 0x2000 <= n <= 0x200a || n == 0x2028 || n == 0x2029 || n == 0x202f || n == 0x205f || n == 0x3000
  }

  function TrimStart(s: string): string {
    if s != "" && IsSpace(s[0]) then TrimStart(s[1..]) else s
  }

  function TrimEnd(s: string): string {
    if s != "" && IsSpace(s[|s| - 1]) then TrimEnd(s[..|s| - 1]) else s
  }

  function Trim(s: string): string {
    TrimEnd(TrimStart(s))
  }

  function SplitOnce(s: string, c: char): Option<(string, string)> {
    var i := Find(s, c);
    if i < |s| then Some((s[..i], s[i + 1..])) else None
  }

  function Split(s: string, c: char): (r: seq<string>)
    ensures r != []
    ensures forall k :: 0 <= k < |r| ==> c !in r[k]
    decreases |s|
  {
    match SplitOnce(s, c)
    case None => [s]
    case Some((head, rest)) => [head] + Split(rest, c)
  }

  function NonEmpty(parts: seq<string>): (r: seq<string>)
    ensures forall k :: 0 <= k < |r| ==> r[k] != "" && r[k] in parts
  {
    if parts == [] then []
    else (if parts[0] == "" then [] else [parts[0]]) + NonEmpty(parts[1..])
  }

  function Join(parts: seq<string>, c: char): string {
    if parts == [] then ""
    else if |parts| == 1 then parts[0]
    else parts[0] + [c] + Join(parts[1..], c)
  }

  /** The non-empty segments of a slash-separated path. */
  function Segments(path: string): (r: seq<string>)
    ensures forall k :: 0 <= k < |r| ==> r[k] != "" && '/' !in r[k]
  {
    NonEmpty(Split(path, '/'))
  }

  const GIT: string := ".git"

  predicate EndsWith(s: string, tail: string) {
    |tail| <= |s| && s[|s| - |tail|..] == tail
  }

  /** All trailing `.git`s removed. */
  function TrimGit(s: string): (r: string)
    ensures r <= s && !EndsWith(r, GIT)
    decreases |s|
  {
    if EndsWith(s, GIT) then TrimGit(s[..|s| - |GIT|]) else s
  }

  function LowerAscii(s: string): string {
    seq(|s|, i requires 0 <= i < |s| => if 'A' <= s[i] <= 'Z' then (s[i] as int + 32) as char else s[i])
  }

  // ------------------------------------------------------------------ sources

  datatype SkillSource =
    | Github(owner: string, repo: string, gitRef: Option<string>)
    | Url(url: string, gitRef: Option<string>)
    | GitSubdir(url: string, path: string, gitRef: Option<string>)
    | Local(localPath: string)

  datatype Error = InvalidSource | HomeUnknown

  const HTTPS: string := "https://"
  const GITHUB: string := "https://github.com/"

  function GithubCloneUrl(owner: string, repo: string): string {
    GITHUB + owner + "/" + repo + GIT
  }

  function SplitRef(input: string): (string, Option<string>) {
    match SplitOnce(input, '#')
    case Some((head, frag)) => if frag != "" then (head, Some(frag)) else (input, None)
    case None => (input, None)
  }

  /** Cut at both kinds of slash. */
  function SplitSlashes(s: string): seq<string>
  {
    var parts := Split(s, '/');
    Flatten(seq(|parts|, i requires 0 <= i < |parts| => Split(parts[i], '\\')))
  }

  function Flatten(parts: seq<seq<string>>): seq<string> {
    if parts == [] then [] else parts[0] + Flatten(parts[1..])
  }

  predicate SubdirIsSafe(subdir: string) {
    subdir != "" && subdir[0] != '/' && ".." !in SplitSlashes(subdir)
  }

  function OrElse<T>(a: Option<T>, b: Option<T>): Option<T> {
    if a.Some? then a else b
  }

  function GithubFromPath(segments: seq<string>, frag: Option<string>): Option<SkillSource> {
    if |segments| < 2 then None
    else
      var owner, repo := segments[0], TrimGit(segments[1]);
      if owner == "" || repo == "" then None
      else if |segments| > 3 && (segments[2] == "tree" || segments[2] == "blob") then
        var gitRef := OrElse(frag, Some(segments[3]));
        var subdir := Join(segments[4..], '/');
        if subdir == "" then Some(Github(owner, repo, gitRef))
        else if !SubdirIsSafe(subdir) then None
        else Some(GitSubdir(GithubCloneUrl(owner, repo), subdir, gitRef))
      else Some(Github(owner, repo, frag))
  }

  function ExpandHome(home: Option<string>, path: string): Result<string, Error> {
    if path == "~" then (if home.Some? then Ok(home.value) else Err(HomeUnknown))
    else if "~/" <= path then
      if home.None? then Err(HomeUnknown)
      else Ok(if "/" <= path[2..] then path[2..] else home.value + "/" + path[2..])
    else Ok(path)
  }

  predicate LooksLocal(s: string) {
    s == "." || s == ".." || "./" <= s || "../" <= s || "/" <= s || "~/" <= s || s == "~"
  }

  function FromGithub(segments: seq<string>, frag: Option<string>): Result<SkillSource, Error> {
    match GithubFromPath(segments, frag)
    case Some(source) => Ok(source)
    case None => Err(InvalidSource)
  }

  /** An `https://` URL, after its fragment has been split off. */
  function ParseHttps(head: string, frag: Option<string>): Result<SkillSource, Error>
    requires HTTPS <= head
  {
    var rest := head[|HTTPS|..];
    var slash := Find(rest, '/');
    var host, path := rest[..slash], if slash < |rest| then rest[slash + 1..] else "";
    if LowerAscii(host) == "github.com" then FromGithub(Segments(path), frag)
    else Ok(Url(head, frag))
  }

  /** GitHub shorthand `owner/repo`: exactly two non-empty segments. */
  function ParseShorthand(head: string, frag: Option<string>): Result<SkillSource, Error> {
    var segments := Segments(head);
    if |segments| == 2 then Ok(Github(segments[0], TrimGit(segments[1]), frag)) else Err(InvalidSource)
  }

  /** Anything that is not a local path, after its fragment has been split off. */
  function ParseRemote(head: string, frag: Option<string>): Result<SkillSource, Error> {
    if HTTPS <= head then ParseHttps(head, frag)
    else if "git@" <= head || "git://" <= head then Ok(Url(head, frag))
    else if Occurs("://", head) then Err(InvalidSource)
    else if "github.com/" <= head then FromGithub(Segments(head[|"github.com/"|..]), frag)
    else ParseShorthand(head, frag)
  }

  function ParseSource(home: Option<string>, input: string): Result<SkillSource, Error> {
    var trimmed := Trim(input);
    if trimmed == "" then Err(InvalidSource)
    else if LooksLocal(trimmed) then
      match ExpandHome(home, trimmed) {
        case Ok(path) => Ok(Local(path))
        case Err(e) => Err(e)
      }
    else if "http://" <= trimmed then Err(InvalidSource)
    else
      var (head, frag) := SplitRef(trimmed);
      ParseRemote(head, frag)
  }

  // -------------------------------------------------------------- the wire form

  datatype WireSource =
    | WireGithub(repo: string, gitRef: Option<string>, sha: Option<string>)
    | WireUrl(url: string, gitRef: Option<string>, sha: Option<string>)
    | WireGitSubdir(url: string, path: string, gitRef: Option<string>, sha: Option<string>)

  function ToWire(s: SkillSource): Result<WireSource, Error> {
    match s
    case Github(owner, repo, gitRef) => Ok(WireGithub(owner + "/" + repo, gitRef, None))
    case Url(url, gitRef) => Ok(WireUrl(url, gitRef, None))
    case GitSubdir(url, path, gitRef) => Ok(WireGitSubdir(url, path, gitRef, None))
    case Local(_) => Err(InvalidSource)
  }

  function FromWire(w: WireSource): Result<SkillSource, Error> {
    match w
    case WireGithub(repo, gitRef, sha) =>
      (match SplitOnce(repo, '/')
       case None => Err(InvalidSource)
       case Some((owner, rest)) =>
         var name := TrimGit(rest);
         if owner == "" || name == "" || '/' in name then Err(InvalidSource)
         else Ok(Github(owner, name, OrElse(gitRef, sha))))
    case WireUrl(url, gitRef, sha) => Ok(Url(url, OrElse(gitRef, sha)))
    case WireGitSubdir(url, path, gitRef, sha) => Ok(GitSubdir(url, path, OrElse(gitRef, sha)))
  }

  // ------------------------------------------------------------ basic lemmas

  lemma {:induction false} SplitOnceAppend(a: string, c: char, b: string)
    requires c !in a
    ensures SplitOnce(a + [c] + b, c) == Some((a, b))
  {
    FindAppend(a, c, b);
    var s := a + [c] + b;
    assert s[..|a|] == a && s[|a| + 1..] == b;
  }

  lemma {:induction false} SplitOnceNone(s: string, c: char)
    requires c !in s
    ensures SplitOnce(s, c) == None
  {
    assert forall k :: 0 <= k < |s| ==> s[k] in s;
  }

  lemma {:induction false} SplitNone(s: string, c: char)
    requires c !in s
    ensures Split(s, c) == [s]
  {
    SplitOnceNone(s, c);
  }

  lemma {:induction false} SplitCons(a: string, c: char, b: string)
    requires c !in a
    ensures Split(a + [c] + b, c) == [a] + Split(b, c)
  {
    SplitOnceAppend(a, c, b);
  }

  lemma {:induction false} SplitJoin(parts: seq<string>, c: char)
    requires parts != [] && forall k :: 0 <= k < |parts| ==> c !in parts[k]
    ensures Split(Join(parts, c), c) == parts
  {
    if |parts| == 1 {
      SplitNone(parts[0], c);
    } else {
      SplitJoin(parts[1..], c);
      SplitCons(parts[0], c, Join(parts[1..], c));
      assert parts == [parts[0]] + parts[1..];
    }
  }

  lemma {:induction false} NonEmptyAll(parts: seq<string>)
    requires forall k :: 0 <= k < |parts| ==> parts[k] != ""
    ensures NonEmpty(parts) == parts
  {
    if parts != [] {
      NonEmptyAll(parts[1..]);
      assert parts == [parts[0]] + parts[1..];
    }
  }

  /** Segments of a path that was put together from proper segments. */
  lemma {:induction false} SegmentsJoin(parts: seq<string>)
    requires parts != [] && forall k :: 0 <= k < |parts| ==> parts[k] != "" && '/' !in parts[k]
    ensures Segments(Join(parts, '/')) == parts
  {
    SplitJoin(parts, '/');
    NonEmptyAll(parts);
  }

  lemma {:induction false} TrimGitOnce(s: string)
    ensures TrimGit(s + GIT) == TrimGit(s)
  {
    assert (s + GIT)[|s|..] == GIT && (s + GIT)[..|s|] == s;
  }

  lemma {:induction false} TrimGitKeeps(s: string)
    requires !EndsWith(s, GIT)
    ensures TrimGit(s) == s
  {
  }

  // ------------------------------------------- what a parsed source looks like

  ghost predicate WellShaped(s: SkillSource) {
    match s
    case Github(owner, repo, _) => owner != "" && '/' !in owner && '/' !in repo && !EndsWith(repo, GIT)
    case GitSubdir(url, path, gitRef) => SubdirIsSafe(path) && gitRef.Some?
    case _ => true
  }

  lemma {:induction false} TrimGitWithout(s: string, c: char)
    requires c !in s
    ensures c !in TrimGit(s)
  {
    var r := TrimGit(s);
    assert forall k :: 0 <= k < |r| ==> r[k] == s[k] && s[k] in s;
  }

  lemma {:induction false} GithubPathShape(segments: seq<string>, frag: Option<string>)
    requires forall k :: 0 <= k < |segments| ==> segments[k] != "" && '/' !in segments[k]
    ensures var s := GithubFromPath(segments, frag);
            s.Some? ==> WellShaped(s.value) && (s.value.Github? ==> s.value.repo != "")
  {
    if |segments| >= 2 {
      TrimGitWithout(segments[1], '/');
    }
  }

  lemma {:induction false} FromGithubShape(segments: seq<string>, frag: Option<string>)
    requires forall k :: 0 <= k < |segments| ==> segments[k] != "" && '/' !in segments[k]
    ensures FromGithub(segments, frag).Ok? ==> WellShaped(FromGithub(segments, frag).value)
  {
    GithubPathShape(segments, frag);
  }

  lemma {:induction false} RemoteIsWellShaped(head: string, frag: Option<string>)
    ensures ParseRemote(head, frag).Ok? ==> WellShaped(ParseRemote(head, frag).value)
  {
    if HTTPS <= head {
      var rest := head[|HTTPS|..];
      var slash := Find(rest, '/');
      FromGithubShape(Segments(if slash < |rest| then rest[slash + 1..] else ""), frag);
    } else if "github.com/" <= head {
      FromGithubShape(Segments(head[|"github.com/"|..]), frag);
    } else if |Segments(head)| == 2 {
      TrimGitWithout(Segments(head)[1], '/');
    }
  }

  lemma {:induction false} ParsedIsWellShaped(home: Option<string>, input: string)
    ensures ParseSource(home, input).Ok? ==> WellShaped(ParseSource(home, input).value)
  {
    var (head, frag) := SplitRef(Trim(input));
    RemoteIsWellShaped(head, frag);
  }

  /** Every git source that parsing yields survives the wire exactly when it is not
      a GitHub source with an empty repository name, as from the shorthand `o/.git`. */
  lemma {:induction false} ParsedSourceSurvivesWireIff(home: Option<string>, input: string)
    ensures var r := ParseSource(home, input);
            r.Ok? && !r.value.Local? ==>
              && ToWire(r.value).Ok?
              && (FromWire(ToWire(r.value).value) == r <==> !(r.value.Github? && r.value.repo == ""))
  {
    ParsedIsWellShaped(home, input);
    if ParseSource(home, input).Ok? && !ParseSource(home, input).value.Local? {
      WellShapedSurvivesWireIff(ParseSource(home, input).value);
    }
  }

  lemma {:induction false} WellShapedSurvivesWireIff(s: SkillSource)
    requires WellShaped(s) && !s.Local?
    ensures ToWire(s).Ok? && (FromWire(ToWire(s).value) == Ok(s) <==> !(s.Github? && s.repo == ""))
  {
    if s.Github? {
      SplitOnceAppend(s.owner, '/', s.repo);
      assert s.owner + "/" + s.repo == s.owner + ['/'] + s.repo;
      TrimGitKeeps(s.repo);
    }
  }

  lemma {:induction false} ShorthandEmptyRepo()
    ensures ParseShorthand("o/.git", None) == Ok(Github("o", "", None))
  {
    assert ["o", ".git"][1..] == [".git"];
    assert Join(["o", ".git"], '/') == "o/.git";
    SegmentsJoin(["o", ".git"]);
    TrimGitOnce("");
    assert "" + GIT == ".git";
  }

  lemma {:induction false} TrimNothing(s: string)
    requires s != "" && !IsSpace(s[0]) && !IsSpace(s[|s| - 1])
    ensures Trim(s) == s
  {
  }

  lemma {:induction false} NoColonNoScheme(s: string, scheme: string)
    requires ':' !in s && ':' in scheme
    ensures !Occurs(scheme, s) && !(scheme <= s)
  {
    var j :| 0 <= j < |scheme| && scheme[j] == ':';
    forall i | 0 <= i <= |s| - |scheme| ensures !OccursAt(scheme, s, i) {
      if OccursAt(scheme, s, i) {
        OccursCharIn(scheme, s, i, j);
      }
    }
    if scheme <= s {
      OccursFirst(scheme, s);
    }
  }

  lemma {:induction false} PlainIsShorthand(head: string, frag: Option<string>)
    requires ':' !in head && '@' !in head && !("github.com/" <= head)
    ensures ParseRemote(head, frag) == ParseShorthand(head, frag)
  {
    NoColonNoScheme(head, HTTPS);
    NoColonNoScheme(head, "git://");
    NoColonNoScheme(head, "://");
    var git := "git@";
    assert git[3] == '@';
    if git <= head {
      OccursCharIn(git, head, 0, 3);
    }
  }

  lemma {:induction false} RemoteInput(home: Option<string>, input: string)
    requires input != "" && !IsSpace(input[0]) && !IsSpace(input[|input| - 1])
    requires input[0] != '.' && input[0] != '/' && input[0] != '~'
    requires !("http://" <= input)
    ensures ParseSource(home, input) == ParseRemote(SplitRef(input).0, SplitRef(input).1)
  {
    TrimNothing(input);
    assert !LooksLocal(input);
  }

  lemma {:induction false} ShorthandInput(home: Option<string>, input: string)
    requires input != "" && !IsSpace(input[0]) && !IsSpace(input[|input| - 1])
    requires input[0] != '.' && input[0] != '/' && input[0] != '~'
    requires ':' !in input && '@' !in input && '#' !in input && !("github.com/" <= input)
    ensures ParseSource(home, input) == ParseShorthand(input, None)
  {
    NoColonNoScheme(input, "http://");
    RemoteInput(home, input);
    SplitOnceNone(input, '#');
    PlainIsShorthand(input, None);
  }

  lemma {:induction false} EmptyRepoNotAccepted()
    ensures FromWire(WireGithub("o/", None, None)) == Err(InvalidSource)
  {
    SplitOnceAppend("o", '/', "");
    assert "o" + ['/'] + "" == "o/";
  }

  /** The shorthand `o/.git` is accepted, and its source is lost on the wire. */
  lemma {:induction false} EmptyRepoIsLost()
    ensures ParseSource(None, "o/.git") == Ok(Github("o", "", None))
    ensures ToWire(Github("o", "", None)) == Ok(WireGithub("o/", None, None))
    ensures FromWire(WireGithub("o/", None, None)) == Err(InvalidSource)
  {
    ShorthandParses();
    EmptyRepoToWire();
    EmptyRepoNotAccepted();
  }

  lemma {:induction false} ShorthandParses()
    ensures ParseSource(None, "o/.git") == Ok(Github("o", "", None))
  {
    ShorthandInput(None, "o/.git");
    ShorthandEmptyRepo();
  }

  lemma {:induction false} EmptyRepoToWire()
    ensures ToWire(Github("o", "", None)) == Ok(WireGithub("o/", None, None))
  {
    assert "o" + "/" + "" == "o/";
  }

  /** Wire to source to wire, when the source is accepted. */
  function Normalise(w: WireSource): Option<WireSource> {
    match FromWire(w)
    case Ok(s) => (match ToWire(s) { case Ok(n) => Some(n) case Err(_) => None })
    case Err(_) => None
  }

  lemma {:induction false} NormaliseIsIdempotent(w: WireSource)
    requires Normalise(w).Some?
    ensures Normalise(Normalise(w).value) == Normalise(w)
    ensures Normalise(w).value.sha.None? && Normalise(w).value.gitRef == OrElse(w.gitRef, w.sha)
  {
    if w.WireGithub? {
      var (owner, rest) := SplitOnce(w.repo, '/').value;
      var name := TrimGit(rest);
      assert '/' !in owner by {
        var i := Find(w.repo, '/');
        assert owner == w.repo[..i];
      }
      SplitOnceAppend(owner, '/', name);
      assert owner + "/" + name == owner + ['/'] + name;
      TrimGitKeeps(name);
    }
  }

  // ---------------------------------------------------- safety of the subdir

  /** Joining a relative path onto a directory, with `.` and `..` resolved. */
  function Enter(base: seq<string>, parts: seq<string>): seq<string> {
    if parts == [] then base
    else
      var here := Enter(base, parts[..|parts| - 1]);
      var last := parts[|parts| - 1];
      if last == "" || last == "." then here
      else if last == ".." then (if here == [] then [] else here[..|here| - 1])
      else here + [last]
  }

  lemma {:induction false} EnterStaysInside(base: seq<string>, parts: seq<string>)
    requires ".." !in parts
    ensures base <= Enter(base, parts)
  {
    if parts != [] {
      EnterStaysInside(base, parts[..|parts| - 1]);
    }
  }

  lemma {:induction false} FlattenMember(parts: seq<seq<string>>, k: nat, s: string)
    requires k < |parts| && s in parts[k]
    ensures s in Flatten(parts)
  {
    if k > 0 {
      assert parts[k] == parts[1..][k - 1];
      FlattenMember(parts[1..], k - 1, s);
    }
  }

  /** A safe subdirectory never leads out of the directory it is joined to. */
  lemma {:induction false} SafeSubdirStaysInside(base: seq<string>, subdir: string)
    requires SubdirIsSafe(subdir)
    ensures base <= Enter(base, Split(subdir, '/'))
  {
    SafeSubdirHasNoParent(subdir);
    EnterStaysInside(base, Split(subdir, '/'));
  }

  lemma {:induction false} SafeSubdirHasNoParent(subdir: string)
    requires SubdirIsSafe(subdir)
    ensures ".." !in Split(subdir, '/')
  {
    var parts := Split(subdir, '/');
    var cut := seq(|parts|, i requires 0 <= i < |parts| => Split(parts[i], '\\'));
    if ".." in parts {
      var k :| 0 <= k < |parts| && parts[k] == "..";
      SplitNone("..", '\\');
      assert ".." in cut[k];
      FlattenMember(cut, k, "..");
      assert false;
    }
  }

  /** Every subdirectory that parsing yields can be joined safely. */
  lemma {:induction false} ParsedSubdirStaysInside(home: Option<string>, input: string, base: seq<string>)
    ensures var r := ParseSource(home, input);
            r.Ok? && r.value.GitSubdir? ==> base <= Enter(base, Split(r.value.path, '/'))
  {
    var r := ParseSource(home, input);
    ParsedIsWellShaped(home, input);
    if r.Ok? && r.value.GitSubdir? {
      SafeSubdirStaysInside(base, r.value.path);
    }
  }

  // ------------------------------------------------- printing and parsing back

  /** The URL of a whole repository, with an optional `#<ref>` fragment. */
  function RepoUrl(owner: string, repo: string, gitRef: Option<string>): string {
    GithubCloneUrl(owner, repo) + match gitRef { case Some(r) => "#" + r case None => "" }
  }

  /** The browser URL of a directory on a branch. */
  function TreeUrl(owner: string, repo: string, gitRef: string, path: string): string {
    GITHUB + Join([owner, repo, "tree", gitRef] + Split(path, '/'), '/')
  }

  predicate ProperSegment(s: string) {
    s != "" && '/' !in s && '#' !in s
  }

  predicate ProperRepo(repo: string) {
    ProperSegment(repo) && !EndsWith(repo, GIT)
  }

  /** A fragment that is kept as it is: not empty, and not ending in white space. */
  predicate ProperFragment(r: string) {
    r != "" && !IsSpace(r[|r| - 1])
  }

  lemma {:induction false} SplitRefNone(s: string)
    requires '#' !in s
    ensures SplitRef(s) == (s, None)
  {
    SplitOnceNone(s, '#');
  }

  lemma {:induction false} SplitRefSome(s: string, r: string)
    requires '#' !in s && r != ""
    ensures SplitRef(s + "#" + r) == (s, Some(r))
  {
    SplitOnceAppend(s, '#', r);
    assert s + ['#'] + r == s + "#" + r;
  }

  lemma {:induction false} SplitRefEmpty(s: string)
    requires '#' !in s
    ensures SplitRef(s + "#") == (s + "#", None)
  {
    SplitOnceAppend(s, '#', "");
    assert s + ['#'] + "" == s + "#";
  }

  lemma {:induction false} GithubHost(path: string)
    ensures var rest := "github.com/" + path;
            Find(rest, '/') == |"github.com"| && rest[..|"github.com"|] == "github.com"
              && rest[|"github.com"| + 1..] == path
  {
    assert '/' !in "github.com";
    FindAppend("github.com", '/', path);
    assert "github.com" + ['/'] + path == "github.com/" + path;
  }

  lemma {:induction false} GithubRemote(path: string, frag: Option<string>)
    ensures ParseRemote(GITHUB + path, frag) == FromGithub(Segments(path), frag)
  {
    var head := GITHUB + path;
    assert head == HTTPS + ("github.com/" + path);
    assert head[|HTTPS|..] == "github.com/" + path;
    GithubHost(path);
    assert LowerAscii("github.com") == "github.com";
  }

  /** What the proofs below need to know of the text `https://github.com/`. */
  ghost predicate LeadsToGithub(pre: string) {
    && |pre| > 4 && pre[0] == 'h' && pre[4] == 's' && '#' !in pre
    && forall path, frag :: ParseRemote(pre + path, frag) == FromGithub(Segments(path), frag)
  }

  lemma {:induction false} GithubLeads()
    ensures LeadsToGithub(GITHUB)
  {
    forall path, frag ensures ParseRemote(GITHUB + path, frag) == FromGithub(Segments(path), frag) {
      GithubRemote(path, frag);
    }
    assert '#' !in GITHUB;
  }

  lemma {:induction false} HttpsInput(home: Option<string>, s: string)
    requires |s| > 4 && s[0] == 'h' && s[4] == 's' && !IsSpace(s[|s| - 1])
    ensures ParseSource(home, s) == ParseRemote(SplitRef(s).0, SplitRef(s).1)
  {
    assert "http://"[4] == ':';
    RemoteInput(home, s);
  }

  lemma {:induction false} LastOf(a: string, b: string)
    requires b != ""
    ensures a + b != "" && (a + b)[|a + b| - 1] == b[|b| - 1]
  {
  }

  lemma {:induction false} NoHashIn(a: string, b: string)
    requires '#' !in a && '#' !in b
    ensures '#' !in a + b
  {
  }

  /** Parsing a `github.com` URL, without and with a fragment. */
  lemma {:induction false} GithubUrl(home: Option<string>, pre: string, path: string)
    requires LeadsToGithub(pre)
    requires path != "" && '#' !in path && !IsSpace(path[|path| - 1])
    ensures ParseSource(home, pre + path) == FromGithub(Segments(path), None)
  {
    LastOf(pre, path);
    HttpsInput(home, pre + path);
    NoHashIn(pre, path);
    SplitRefNone(pre + path);
  }

  lemma {:induction false} GithubUrlWithRef(home: Option<string>, pre: string, path: string, r: string)
    requires LeadsToGithub(pre)
    requires '#' !in path && ProperFragment(r)
    ensures ParseSource(home, pre + path + "#" + r) == FromGithub(Segments(path), Some(r))
  {
    LastOf(pre + path + "#", r);
    HttpsInput(home, pre + path + "#" + r);
    NoHashIn(pre, path);
    SplitRefSome(pre + path, r);
  }

  lemma {:induction false} RepoSegments(owner: string, repo: string)
    requires owner != "" && '/' !in owner && '/' !in repo
    ensures Segments(RepoPath(owner, repo)) == [owner, repo + GIT]
    ensures TrimGit(repo + GIT) == TrimGit(repo)
  {
    SegmentsJoin([owner, repo + GIT]);
    assert [owner, repo + GIT][1..] == [repo + GIT];
    assert Join([owner, repo + GIT], '/') == owner + ['/'] + (repo + GIT) == owner + "/" + repo + GIT;
    TrimGitOnce(repo);
  }

  /** The path part of a printed repository URL. */
  function RepoPath(owner: string, repo: string): string {
    owner + "/" + repo + GIT
  }

  function RefTail(gitRef: Option<string>): string {
    match gitRef { case Some(r) => "#" + r case None => "" }
  }

  lemma {:induction false} RepoUrlParts(owner: string, repo: string, gitRef: Option<string>)
    ensures RepoUrl(owner, repo, gitRef) == GITHUB + RepoPath(owner, repo) + RefTail(gitRef)
  {
    RegroupFour(GITHUB, owner, "/", repo, GIT);
  }

  lemma {:induction false} RegroupFour(a: string, b: string, c: string, d: string, e: string)
    ensures a + b + c + d + e == a + (b + c + d + e)
  {
  }

  lemma {:induction false} RepoPathEnds(owner: string, repo: string)
    ensures var path := RepoPath(owner, repo);
            |path| > |GIT| && path[|path| - |GIT|..] == GIT && path[|path| - 1] == 't'
    ensures '#' in RepoPath(owner, repo) <==> '#' in owner || '#' in repo
  {
    var path := RepoPath(owner, repo);
    assert path == (owner + "/" + repo) + GIT;
    assert GIT[3] == 't';
  }

  /** Printing a repository as a URL and parsing it gives the same source back. */
  lemma {:induction false} RepoUrlRoundTrip(home: Option<string>, owner: string, repo: string, gitRef: Option<string>)
    requires ProperSegment(owner) && ProperRepo(repo) && (gitRef.Some? ==> ProperFragment(gitRef.value))
    ensures ParseSource(home, RepoUrl(owner, repo, gitRef)) == Ok(Github(owner, repo, gitRef))
  {
    var path := RepoPath(owner, repo);
    GithubLeads();
    RepoUrlParts(owner, repo, gitRef);
    RepoPathEnds(owner, repo);
    RepoSegments(owner, repo);
    TrimGitKeeps(repo);
    match gitRef
    case None =>
      assert GITHUB + path + "" == GITHUB + path;
      GithubUrl(home, GITHUB, path);
    case Some(r) =>
      Assoc(GITHUB + path, "#", r);
      GithubUrlWithRef(home, GITHUB, path, r);
  }

  // The conditions on a printed repository are also necessary.

  lemma {:induction false} TrimEndTail(base: string, tail: string)
    requires base != "" && !IsSpace(base[|base| - 1])
    ensures TrimEnd(base + tail) == base + TrimEnd(tail)
    decreases |tail|
  {
    if tail == "" {
      assert base + tail == base && base + TrimEnd(tail) == base;
    } else if IsSpace(tail[|tail| - 1]) {
      assert (base + tail)[..|base + tail| - 1] == base + tail[..|tail| - 1];
      TrimEndTail(base, tail[..|tail| - 1]);
    }
  }

  lemma {:induction false} TrimEndEdge(s: string)
    ensures TrimEnd(s) == "" || !IsSpace(TrimEnd(s)[|TrimEnd(s)| - 1])
    ensures TrimEnd(s) <= s
  {
    if s != "" && IsSpace(s[|s| - 1]) {
      TrimEndEdge(s[..|s| - 1]);
    }
  }

  lemma {:induction false} TrimUrl(s: string, tail: string)
    requires s != "" && !IsSpace(s[0]) && !IsSpace(s[|s| - 1])
    ensures Trim(s + tail) == s + TrimEnd(tail)
    ensures s + TrimEnd(tail) != ""
    ensures !IsSpace((s + TrimEnd(tail))[|s + TrimEnd(tail)| - 1])
    ensures Trim(s + TrimEnd(tail)) == s + TrimEnd(tail)
  {
    assert (s + tail)[0] == s[0];
    TrimEndTail(s, tail);
    TrimEndEdge(tail);
    var t := s + TrimEnd(tail);
    assert t[0] == s[0];
    if TrimEnd(tail) == "" {
      assert t == s;
    } else {
      LastOf(s, TrimEnd(tail));
    }
    TrimNothing(t);
  }

  lemma {:induction false} PrintedUrl(home: Option<string>, url: string, tail: string)
    requires |url| > 4 && url[0] == 'h' && url[4] == 's' && !IsSpace(url[|url| - 1])
    ensures var s := url + TrimEnd(tail);
            ParseSource(home, url + tail) == ParseRemote(SplitRef(s).0, SplitRef(s).1)
  {
    TrimUrl(url, tail);
    TrimmedAlike(home, url + tail, url + TrimEnd(tail));
    HttpsInput(home, url + TrimEnd(tail));
  }

  /** Parsing a URL that was printed with any tail after the repository. */
  lemma {:induction false} PrintedInput(home: Option<string>, pre: string, path: string, tail: string)
    requires LeadsToGithub(pre)
    requires path != "" && !IsSpace(path[|path| - 1])
    ensures var s := pre + path + TrimEnd(tail);
            ParseSource(home, pre + path + tail) == ParseRemote(SplitRef(s).0, SplitRef(s).1)
  {
    LastOf(pre, path);
    PrintedUrl(home, pre + path, tail);
  }

  lemma {:induction false} TrimmedAlike(home: Option<string>, a: string, b: string)
    requires Trim(a) == Trim(b)
    ensures ParseSource(home, a) == ParseSource(home, b)
  {
  }

  /** A segment of a string only has characters of that string. */
  lemma {:induction false} SegmentsWithout(path: string, d: char)
    requires d !in path
    ensures forall k :: 0 <= k < |Segments(path)| ==> d !in Segments(path)[k]
  {
    SplitPieces(path, '/', d);
  }

  lemma {:induction false} FromGithubWithout(segments: seq<string>, frag: Option<string>, d: char)
    requires forall k :: 0 <= k < |segments| ==> d !in segments[k]
    ensures var s := FromGithub(segments, frag);
            s.Ok? && s.value.Github? ==> d !in s.value.owner && d !in s.value.repo
  {
    if |segments| >= 2 {
      TrimGitWithout(segments[1], d);
    }
  }

  lemma {:induction false} RegroupHash(pre: string, before: string, after: string, tail: string)
    ensures pre + (before + "#" + after) + tail == (pre + before) + "#" + (after + tail)
  {
  }

  /** A hash inside the printed names ends the URL there: they cannot come back. */
  lemma {:induction false} HashIsLost(home: Option<string>, pre: string, before: string, after: string, tail: string)
    requires LeadsToGithub(pre)
    requires '#' !in before && after != "" && !IsSpace(after[|after| - 1])
    ensures var s := ParseSource(home, pre + (before + "#" + after) + tail);
            s.Ok? && s.value.Github? ==> '#' !in s.value.owner && '#' !in s.value.repo
  {
    var path, rest := before + "#" + after, after + TrimEnd(tail);
    LastOf(before + "#", after);
    PrintedInput(home, pre, path, tail);
    RegroupHash(pre, before, after, TrimEnd(tail));
    NoHashIn(pre, before);
    SplitRefSome(pre + before, rest);
    SegmentsWithout(before, '#');
    FromGithubWithout(Segments(before), Some(rest), '#');
  }

  /** Everything a GitHub source from a printed URL can look like. */
  lemma {:induction false} PrintedShape(home: Option<string>, pre: string, path: string, tail: string)
    requires LeadsToGithub(pre)
    requires path != "" && !IsSpace(path[|path| - 1])
    ensures var s := ParseSource(home, pre + path + tail);
            s.Ok? && s.value.Github? ==> WellShaped(s.value) && s.value.repo != ""
  {
    PrintedInput(home, pre, path, tail);
    Assoc(pre, path, TrimEnd(tail));
    var (head, frag) := SplitRef(pre + (path + TrimEnd(tail)));
    PrefixKept(pre, path + TrimEnd(tail));
    GithubHeadShape(pre, head, frag);
  }

  lemma {:induction false} GithubHeadShape(pre: string, head: string, frag: Option<string>)
    requires LeadsToGithub(pre) && pre <= head
    ensures var s := ParseRemote(head, frag);
            s.Ok? && s.value.Github? ==> WellShaped(s.value) && s.value.repo != ""
  {
    var p := head[|pre|..];
    assert head == pre + p;
    GithubPathShape(Segments(p), frag);
  }

  /** The fragment is cut off behind the host. */
  lemma {:induction false} PrefixKept(pre: string, p: string)
    requires '#' !in pre
    ensures pre <= SplitRef(pre + p).0
  {
    var s := pre + p;
    assert forall k :: 0 <= k < |pre| ==> s[k] == pre[k] && pre[k] in pre;
  }

  /** A repository comes back from its URL exactly when its names are proper
      segments and its ref, if any, is a proper fragment. */
  lemma {:induction false} RepoUrlRoundTripIff(home: Option<string>, owner: string, repo: string,
                                               gitRef: Option<string>)
    ensures ParseSource(home, RepoUrl(owner, repo, gitRef)) == Ok(Github(owner, repo, gitRef)) <==>
            ProperSegment(owner) && ProperRepo(repo) && (gitRef.Some? ==> ProperFragment(gitRef.value))
  {
    if ProperSegment(owner) && ProperRepo(repo) && (gitRef.Some? ==> ProperFragment(gitRef.value)) {
      RepoUrlRoundTrip(home, owner, repo, gitRef);
    } else {
      GithubLeads();
      RepoUrlParts(owner, repo, gitRef);
      ImproperIsLost(home, GITHUB, owner, repo, gitRef);
    }
  }

  lemma {:induction false} ImproperIsLost(home: Option<string>, pre: string, owner: string, repo: string,
                                          gitRef: Option<string>)
    requires LeadsToGithub(pre)
    requires !(ProperSegment(owner) && ProperRepo(repo) && (gitRef.Some? ==> ProperFragment(gitRef.value)))
    ensures ParseSource(home, pre + RepoPath(owner, repo) + RefTail(gitRef)) != Ok(Github(owner, repo, gitRef))
  {
    var path := RepoPath(owner, repo);
    RepoPathEnds(owner, repo);
    PrintedShape(home, pre, path, RefTail(gitRef));
    if '#' in path {
      var i := Find(path, '#');
      HashBeforeGit(path, i);
      HashIsLost(home, pre, path[..i], path[i + 1..], RefTail(gitRef));
    } else if ProperSegment(owner) && ProperRepo(repo) {
      PrintedRef(home, pre, owner, repo, gitRef.value);
    }
  }

  lemma {:induction false} HashBeforeGit(path: string, i: nat)
    requires i < |path| && path[i] == '#' && |path| > |GIT| && path[|path| - |GIT|..] == GIT
    ensures path == path[..i] + "#" + path[i + 1..]
    ensures path[i + 1..] != "" && !IsSpace(path[|path| - 1])
  {
    assert path[|path| - 1] == path[|path| - |GIT|..][3] == 't';
    assert path[i] == '#';
  }

  /** The ref that comes back is what is left of it after trimming, or nothing. */
  lemma {:induction false} PrintedRef(home: Option<string>, pre: string, owner: string, repo: string, r: string)
    requires LeadsToGithub(pre)
    requires ProperSegment(owner) && ProperRepo(repo) && !ProperFragment(r)
    ensures ParseSource(home, pre + RepoPath(owner, repo) + ("#" + r)) != Ok(Github(owner, repo, Some(r)))
  {
    var path := RepoPath(owner, repo);
    RepoPathEnds(owner, repo);
    PrintedInput(home, pre, path, "#" + r);
    TrimEndTail("#", r);
    TrimmedDiffers(r);
    NoHashIn(pre, path);
    PrintedFragment(pre, path, TrimEnd(r));
    TwoSegmentsNoRef(owner, repo);
    FragmentKept(Segments(path), TrimEnd(r));
  }

  lemma {:induction false} TrimmedDiffers(r: string)
    requires !ProperFragment(r)
    ensures TrimEnd(r) == "" || TrimEnd(r) != r
  {
    TrimEndEdge(r);
  }

  lemma {:induction false} FragmentKept(segments: seq<string>, t: string)
    ensures var s := FromGithub(segments, Some(t));
            s.Ok? && s.value.Github? ==> s.value.gitRef == Some(t)
  {
  }

  lemma {:induction false} PrintedFragment(pre: string, path: string, t: string)
    requires LeadsToGithub(pre) && '#' !in path && '#' !in pre + path
    ensures var (head, frag) := SplitRef(pre + path + ("#" + t));
            ParseRemote(head, frag) ==
            if t == "" then FromGithub(Segments(path + "#"), None) else FromGithub(Segments(path), Some(t))
  {
    Assoc(pre + path, "#", t);
    if t == "" {
      SplitRefEmpty(pre + path);
      Assoc(pre, path, "#");
      assert pre + path + "#" + "" == pre + path + "#";
    } else {
      SplitRefSome(pre + path, t);
    }
  }

  lemma {:induction false} TwoSegmentsNoRef(owner: string, repo: string)
    requires ProperSegment(owner) && ProperRepo(repo)
    ensures var s := FromGithub(Segments(RepoPath(owner, repo) + "#"), None);
            s.Ok? && s.value.Github? ==> s.value.gitRef.None?
  {
    var last := repo + GIT + "#";
    SegmentsJoin([owner, last]);
    assert [owner, last][1..] == [last];
    assert Join([owner, last], '/') == owner + ['/'] + last == owner + "/" + repo + GIT + "#";
  }

  lemma {:induction false} JoinSplit(s: string, c: char)
    ensures Join(Split(s, c), c) == s
    decreases |s|
  {
    match SplitOnce(s, c)
    case None =>
    case Some((head, rest)) =>
      JoinSplit(rest, c);
      assert Split(s, c)[1..] == Split(rest, c);
      assert s == head + [c] + rest;
  }

  lemma {:induction false} SplitPieces(s: string, c: char, d: char)
    requires d !in s
    ensures forall part :: part in Split(s, c) ==> d !in part
    decreases |s|
  {
    match SplitOnce(s, c)
    case None =>
    case Some((head, rest)) =>
      SplitPieces(rest, c, d);
  }
}
