/** Subdirectory sources printed as browser URLs and parsed back
    (crates/bitrouter-skills/src/source.rs): exactly which paths survive. */
module SkillTreeUrl {
  import opened Wrappers
  import opened Strings
  import opened SkillSource

  /** A safe path without empty segments that neither ends in white space nor
      holds a `#` other than at its very end. */
  predicate KeptPath(path: string) {
    && SubdirIsSafe(path) && !IsSpace(path[|path| - 1]) && SplitRef(path).1.None?
    && forall part :: part in Split(path, '/') ==> part != ""
  }

  lemma {:induction false} SplitRefAppend(pre: string, q: string)
    requires '#' !in pre
    ensures SplitRef(pre + q) == (pre + SplitRef(q).0, SplitRef(q).1)
  {
    if '#' in q {
      var i := Find(q, '#');
      SplitRefCut(pre, q[..i], q[i + 1..]);
      assert q == q[..i] + ['#'] + q[i + 1..];
    } else {
      NoHashIn(pre, q);
      SplitRefNone(q);
      SplitRefNone(pre + q);
    }
  }

  lemma {:induction false} SplitRefCut(pre: string, u: string, v: string)
    requires '#' !in pre && '#' !in u
    ensures var q := u + ['#'] + v; SplitRef(pre + q) == (pre + SplitRef(q).0, SplitRef(q).1)
  {
    SplitOnceAppend(u, '#', v);
    NoHashIn(pre, u);
    SplitOnceAppend(pre + u, '#', v);
    Regroup3(pre, u, ['#'], v);
  }

  lemma {:induction false} Regroup3(a: string, b: string, c: string, d: string)
    ensures a + (b + c + d) == (a + b) + c + d
  {
  }

  lemma {:induction false} SplitRefPrefix(q: string)
    ensures SplitRef(q).0 <= q && (SplitRef(q).0 == q <==> SplitRef(q).1.None?)
  {
  }

  lemma {:induction false} JoinAppend(a: seq<string>, b: seq<string>, c: char)
    requires a != [] && b != []
    ensures Join(a + b, c) == Join(a, c) + [c] + Join(b, c)
  {
    if |a| == 1 {
      assert (a + b)[1..] == b;
    } else {
      JoinAppend(a[1..], b, c);
      assert (a + b)[1..] == a[1..] + b;
    }
  }

  lemma {:induction false} SplitAfter(a: seq<string>, q: string)
    requires a != [] && forall k :: 0 <= k < |a| ==> '/' !in a[k]
    ensures Split(Join(a, '/') + "/" + q, '/') == a + Split(q, '/')
  {
    if |a| == 1 {
      SplitCons(a[0], '/', q);
      assert a == [a[0]];
    } else {
      var tail := Join(a[1..], '/');
      SplitAfter(a[1..], q);
      SplitCons(a[0], '/', tail + "/" + q);
      RegroupTail(a[0] + ['/'], tail, "/", q);
      Assoc([a[0]], a[1..], Split(q, '/'));
      assert a == [a[0]] + a[1..];
    }
  }

  lemma {:induction false} RegroupTail(a: string, b: string, c: string, d: string)
    ensures (a + b) + c + d == a + (b + c + d)
  {
  }

  lemma {:induction false} NonEmptyAppend(a: seq<string>, b: seq<string>)
    requires forall k :: 0 <= k < |a| ==> a[k] != ""
    ensures NonEmpty(a + b) == a + NonEmpty(b)
  {
    if a == [] {
      assert a + b == b;
    } else {
      HeadAndTail(a);
      Assoc([a[0]], a[1..], b);
      NonEmptyCons(a[0], a[1..] + b);
      NonEmptyAppend(a[1..], b);
      Assoc([a[0]], a[1..], NonEmpty(b));
    }
  }

  lemma {:induction false} NonEmptyCons(part: string, parts: seq<string>)
    requires part != ""
    ensures NonEmpty([part] + parts) == [part] + NonEmpty(parts)
  {
    assert ([part] + parts)[1..] == parts;
  }

  /** Segments of a path below other segments. */
  lemma {:induction false} SegmentsAfter(a: seq<string>, q: string)
    requires a != [] && forall k :: 0 <= k < |a| ==> a[k] != "" && '/' !in a[k]
    ensures Segments(Join(a, '/') + "/" + q) == a + Segments(q)
  {
    SplitAfter(a, q);
    NonEmptyAppend(a, Split(q, '/'));
  }

  lemma {:induction false} JoinShorter(parts: seq<string>, c: char)
    ensures |Join(NonEmpty(parts), c)| <= |Join(parts, c)|
  {
    if parts != [] {
      JoinShorter(parts[1..], c);
      var kept := NonEmpty(parts[1..]);
      if parts[0] == "" {
        assert [] + kept == kept;
      } else {
        assert ([parts[0]] + kept)[1..] == kept;
      }
    }
  }

  /** Dropping empty segments gives the same path only when there are none. */
  lemma {:induction false} SegmentsWholeIff(q: string, path: string)
    requires q <= path && path != ""
    ensures Join(Segments(q), '/') == path <==> q == path && forall part :: part in Split(path, '/') ==> part != ""
  {
    JoinShorter(Split(q, '/'), '/');
    JoinSplit(q, '/');
    if Join(Segments(q), '/') == path {
      SplitJoin(Segments(q), '/');
    }
    if q == path && forall part :: part in Split(path, '/') ==> part != "" {
      var parts := Split(path, '/');
      assert forall k :: 0 <= k < |parts| ==> parts[k] in parts;
      NonEmptyAll(parts);
    }
  }

  function TreeHead(owner: string, repo: string, gitRef: string): seq<string> {
    [owner, repo, "tree", gitRef]
  }

  lemma {:induction false} TreeUrlParts(owner: string, repo: string, gitRef: string, path: string)
    ensures TreeUrl(owner, repo, gitRef, path) == GITHUB + (Join(TreeHead(owner, repo, gitRef), '/') + "/") + path
  {
    var a, b := TreeHead(owner, repo, gitRef), Split(path, '/');
    JoinAppend(a, b, '/');
    JoinSplit(path, '/');
    Regroup(GITHUB, Join(a, '/'), path);
  }

  lemma {:induction false} Regroup(pre: string, a: string, path: string)
    ensures pre + (a + ['/'] + path) == pre + (a + "/") + path
  {
  }

  lemma {:induction false} JoinWithout(parts: seq<string>, c: char, d: char)
    requires d != c && forall k :: 0 <= k < |parts| ==> d !in parts[k]
    ensures d !in Join(parts, c)
  {
    if |parts| > 1 {
      JoinWithout(parts[1..], c, d);
    }
  }

  lemma {:induction false} TreeHeadPlain(owner: string, repo: string, gitRef: string)
    requires ProperSegment(owner) && ProperSegment(repo) && ProperSegment(gitRef)
    ensures '#' !in Join(TreeHead(owner, repo, gitRef), '/') + "/"
  {
    JoinWithout(TreeHead(owner, repo, gitRef), '/', '#');
  }

  /** What parsing the printed URL sees: the path without trailing white space,
      cut at the first `#` that has something behind it. */
  lemma {:induction false} TreeUrlParsed(home: Option<string>, pre: string, head: string, a: seq<string>, path: string)
    requires LeadsToGithub(pre) && '#' !in head && head == Join(a, '/') + "/"
    requires a != [] && forall k :: 0 <= k < |a| ==> a[k] != "" && '/' !in a[k]
    ensures var q := SplitRef(TrimEnd(path));
            ParseSource(home, pre + head + path) == FromGithub(a + Segments(q.0), q.1)
  {
    var t := TrimEnd(path);
    assert head[|head| - 1] == '/';
    PrintedInput(home, pre, head, path);
    NoHashIn(pre, head);
    SplitRefAppend(pre + head, t);
    var rest := SplitRef(t).0;
    Assoc(pre, head, rest);
    SegmentsAfter(a, rest);
  }

  lemma {:induction false} TreeResult(owner: string, repo: string, gitRef: string, rest: seq<string>,
                                      frag: Option<string>)
    requires owner != "" && ProperRepo(repo)
    ensures var subdir := Join(rest, '/');
            FromGithub(TreeHead(owner, repo, gitRef) + rest, frag) ==
            if subdir == "" then Ok(Github(owner, repo, OrElse(frag, Some(gitRef))))
            else if SubdirIsSafe(subdir)
              then Ok(GitSubdir(GithubCloneUrl(owner, repo), subdir, OrElse(frag, Some(gitRef))))
            else Err(InvalidSource)
  {
    var segments := TreeHead(owner, repo, gitRef) + rest;
    assert segments[4..] == rest;
    TrimGitKeeps(repo);
  }

  /** With proper names, a subdirectory comes back from its browser URL exactly
      when its path is kept. */
  lemma {:induction false} ProperTreeUrlIff(home: Option<string>, owner: string, repo: string, gitRef: string,
                                            path: string)
    requires ProperSegment(owner) && ProperRepo(repo) && ProperSegment(gitRef)
    ensures KeptPath(path) <==>
            ParseSource(home, TreeUrl(owner, repo, gitRef, path)) ==
              Ok(GitSubdir(GithubCloneUrl(owner, repo), path, Some(gitRef)))
  {
    var a := TreeHead(owner, repo, gitRef);
    var q := SplitRef(TrimEnd(path));
    GithubLeads();
    TreeUrlParts(owner, repo, gitRef, path);
    TreeHeadPlain(owner, repo, gitRef);
    TreeUrlParsed(home, GITHUB, Join(a, '/') + "/", a, path);
    TreeResult(owner, repo, gitRef, Segments(q.0), q.1);
    TrimEndEdge(path);
    SplitRefPrefix(TrimEnd(path));
    if path != "" {
      SegmentsWholeIff(q.0, path);
    }
  }

  // ----------------------------------------------- the names have to be proper

  function Count(s: string, c: char): nat {
    if s == "" then 0 else (if s[0] == c then 1 else 0) + Count(s[1..], c)
  }

  lemma {:induction false} CountAppend(a: string, b: string, c: char)
    ensures Count(a + b, c) == Count(a, c) + Count(b, c)
  {
    if a == "" {
      EmptyFirst(b);
    } else {
      assert (a + b)[1..] == a[1..] + b;
      CountAppend(a[1..], b, c);
    }
  }

  lemma {:induction false} CountNone(s: string, c: char)
    ensures Count(s, c) == 0 <==> c !in s
  {
    if s != "" {
      HeadAndTail(s);
      CountNone(s[1..], c);
    }
  }

  /** What a subdirectory source found in a path is made of. */
  lemma {:induction false} SubdirMade(segments: seq<string>, frag: Option<string>)
    requires forall k :: 0 <= k < |segments| ==> segments[k] != "" && '/' !in segments[k]
    requires FromGithub(segments, frag).Ok? && FromGithub(segments, frag).value.GitSubdir?
    ensures |segments| > 3
    ensures var s := FromGithub(segments, frag).value;
            && s.url == GithubCloneUrl(segments[0], TrimGit(segments[1]))
            && s.path == Join(segments[4..], '/') && s.gitRef == OrElse(frag, Some(segments[3]))
    ensures var repo := TrimGit(segments[1]);
            repo != "" && '/' !in repo && !EndsWith(repo, GIT) && ('#' in repo ==> '#' in segments[1])
  {
    TrimGitWithout(segments[1], '/');
  }

  lemma {:induction false} SlashFirst(owner: string, rest: string, o: string, r: string)
    requires owner + "/" + rest == o + "/" + r && '/' !in o && '/' !in r
    ensures owner == o && rest == r
  {
    OneSlash(owner, rest);
    OneSlash(o, r);
    CountNone(o, '/');
    CountNone(r, '/');
    CountNone(owner, '/');
    SplitOnceAppend(owner, '/', rest);
    SplitOnceAppend(o, '/', r);
  }

  lemma {:induction false} OneSlash(a: string, b: string)
    ensures Count(a + "/" + b, '/') == Count(a, '/') + 1 + Count(b, '/')
  {
    CountAppend(a + "/", b, '/');
    CountAppend(a, "/", '/');
  }

  /** The clone URL of a slash-free owner and name is that of no other pair. */
  lemma {:induction false} OnePair(owner: string, repo: string, o: string, r: string)
    requires GithubCloneUrl(owner, repo) == GithubCloneUrl(o, r) && '/' !in o && '/' !in r
    ensures owner == o && repo == r
  {
    CloneUrlTail(owner, repo);
    CloneUrlTail(o, r);
    assert '/' !in GIT;
    SlashFirst(owner, repo + GIT, o, r + GIT);
    assert repo == (repo + GIT)[..|repo|] && r == (r + GIT)[..|r|];
  }

  lemma {:induction false} CloneUrlTail(owner: string, repo: string)
    ensures GithubCloneUrl(owner, repo)[|GITHUB|..] == owner + "/" + (repo + GIT)
  {
    RegroupFour(GITHUB, owner, "/", repo, GIT);
    assert owner + "/" + repo + GIT == owner + "/" + (repo + GIT);
  }

  /** The names in front of the path, and what they are made of. */
  function Names(owner: string, repo: string, gitRef: string): string {
    Join(TreeHead(owner, repo, gitRef), '/') + "/"
  }

  lemma {:induction false} NamesSpelled(owner: string, repo: string, gitRef: string)
    ensures Names(owner, repo, gitRef) == owner + "/" + (repo + ("/tree/" + (gitRef + "/")))
  {
    var a := TreeHead(owner, repo, gitRef);
    assert a[1..] == [repo, "tree", gitRef] && a[1..][1..] == ["tree", gitRef] && a[1..][1..][1..] == [gitRef];
    assert Join(["tree", gitRef], '/') == "tree" + ['/'] + gitRef;
    assert Join(a[1..], '/') == repo + ['/'] + Join(["tree", gitRef], '/');
    assert Join(a, '/') == owner + ['/'] + Join(a[1..], '/');
    assert repo + ['/'] + ("tree" + ['/'] + gitRef) + "/" == repo + ("/tree/" + (gitRef + "/"));
    Assoc(owner + ['/'], Join(a[1..], '/'), "/");
  }

  lemma {:induction false} NamesCount(owner: string, repo: string, gitRef: string)
    ensures Count(Names(owner, repo, gitRef), '#') == Count(owner, '#') + Count(repo, '#') + Count(gitRef, '#')
    ensures Names(owner, repo, gitRef)[|Names(owner, repo, gitRef)| - 1] == '/'
  {
    NamesSpelled(owner, repo, gitRef);
    CountNone("/", '#');
    CountNone("/tree/", '#');
    Assoc(owner, "/", repo + ("/tree/" + (gitRef + "/")));
    CountAppend(owner, "/" + (repo + ("/tree/" + (gitRef + "/"))), '#');
    CountAppend("/", repo + ("/tree/" + (gitRef + "/")), '#');
    CountAppend(repo, "/tree/" + (gitRef + "/"), '#');
    CountAppend("/tree/", gitRef + "/", '#');
    CountAppend(gitRef, "/", '#');
  }

  /** A hash in the names ends the URL there, and what is behind it becomes the ref. */
  lemma {:induction false} HashCuts(home: Option<string>, pre: string, before: string, after: string, tail: string)
    requires LeadsToGithub(pre) && '#' !in before && after != "" && !IsSpace(after[|after| - 1])
    ensures ParseSource(home, pre + (before + "#" + after) + tail) ==
            FromGithub(Segments(before), Some(after + TrimEnd(tail)))
  {
    LastOf(before + "#", after);
    PrintedInput(home, pre, before + "#" + after, tail);
    RegroupHash(pre, before, after, TrimEnd(tail));
    NoHashIn(pre, before);
    SplitRefSome(pre + before, after + TrimEnd(tail));
  }

  /** That ref has a hash less than the one that was printed. */
  lemma {:induction false} HashInNames(home: Option<string>, pre: string, before: string, after: string, owner: string,
                                       repo: string, gitRef: string, path: string)
    requires LeadsToGithub(pre) && Names(owner, repo, gitRef) == before + "#" + after && '#' !in before
    requires after != "" && !IsSpace(after[|after| - 1])
    ensures ParseSource(home, pre + Names(owner, repo, gitRef) + path) !=
            Ok(GitSubdir(GithubCloneUrl(owner, repo), path, Some(gitRef)))
  {
    var t := TrimEnd(path);
    HashCuts(home, pre, before, after, path);
    SegmentsWithout(before, '#');
    TrimEndEdge(path);
    if FromGithub(Segments(before), Some(after + t)) == Ok(GitSubdir(GithubCloneUrl(owner, repo), path, Some(gitRef))) {
      HashlessSubdir(before, after + t, owner, repo, gitRef, path);
      HashesLeft(before, after, t, owner, repo, gitRef, path);
    }
  }

  lemma {:induction false} HashlessSubdir(before: string, frag: string, owner: string, repo: string, gitRef: string,
                                          path: string)
    requires forall k :: 0 <= k < |Segments(before)| ==> '#' !in Segments(before)[k]
    requires FromGithub(Segments(before), Some(frag)) == Ok(GitSubdir(GithubCloneUrl(owner, repo), path, Some(gitRef)))
    ensures '#' !in owner && '#' !in repo && '#' !in path && gitRef == frag
  {
    var segments := Segments(before);
    SubdirMade(segments, Some(frag));
    OnePair(owner, repo, segments[0], TrimGit(segments[1]));
    JoinWithout(segments[4..], '/', '#');
  }

  lemma {:induction false} HashesLeft(before: string, after: string, t: string, owner: string, repo: string,
                                      gitRef: string, path: string)
    requires Names(owner, repo, gitRef) == before + "#" + after && '#' !in before && t <= path
    ensures !('#' !in owner && '#' !in repo && '#' !in path && gitRef == after + t)
  {
    NamesCount(owner, repo, gitRef);
    CountAppend(before + "#", after, '#');
    CountAppend(before, "#", '#');
    CountAppend(after, t, '#');
    CountNone(before, '#');
    CountNone(owner, '#');
    CountNone(repo, '#');
    CountNone(t, '#');
  }

  lemma {:induction false} HashlessNames(owner: string, repo: string, gitRef: string)
    requires '#' !in Names(owner, repo, gitRef)
    ensures '#' !in owner && '#' !in repo && '#' !in gitRef
  {
    NamesCount(owner, repo, gitRef);
    CountNone(Names(owner, repo, gitRef), '#');
    CountNone(owner, '#');
    CountNone(repo, '#');
    CountNone(gitRef, '#');
  }

  /** Without a hash in the names, parsing sees them and what of the path is in front of one. */
  lemma {:induction false} HashlessParsed(home: Option<string>, pre: string, names: string, path: string)
    requires LeadsToGithub(pre) && '#' !in names && names != "" && !IsSpace(names[|names| - 1])
    ensures var q := SplitRef(TrimEnd(path));
            ParseSource(home, pre + names + path) == FromGithub(Segments(names + q.0), q.1)
  {
    var t := TrimEnd(path);
    PrintedInput(home, pre, names, path);
    NoHashIn(pre, names);
    SplitRefAppend(pre + names, t);
    Assoc(pre, names, SplitRef(t).0);
  }

  /** Then the names that come back are segments. */
  lemma {:induction false} ReturnedAreProper(home: Option<string>, pre: string, owner: string, repo: string,
                                             gitRef: string, path: string)
    requires LeadsToGithub(pre) && '#' !in Names(owner, repo, gitRef)
    requires ParseSource(home, pre + Names(owner, repo, gitRef) + path) ==
             Ok(GitSubdir(GithubCloneUrl(owner, repo), path, Some(gitRef)))
    ensures ProperSegment(owner) && ProperRepo(repo) && ProperSegment(gitRef)
  {
    var names := Names(owner, repo, gitRef);
    var (rest, frag) := SplitRef(TrimEnd(path));
    HashlessNames(owner, repo, gitRef);
    NamesCount(owner, repo, gitRef);
    HashlessParsed(home, pre, names, path);
    var segments := Segments(names + rest);
    SubdirMade(segments, frag);
    OnePair(owner, repo, segments[0], TrimGit(segments[1]));
    NoFragment(names, path, segments, frag);
  }

  /** The path came back whole, so nothing of it became the fragment. */
  lemma {:induction false} NoFragment(names: string, path: string, segments: seq<string>, frag: Option<string>)
    requires '#' !in names && (SplitRef(TrimEnd(path)).1 == frag)
    requires segments == Segments(names + SplitRef(TrimEnd(path)).0) && |segments| > 3
             && path == Join(segments[4..], '/')
    ensures frag.None?
  {
    var t := TrimEnd(path);
    TrimEndEdge(path);
    if frag.Some? {
      var rest := SplitRef(t).0;
      assert '#' !in rest && '#' in t;
      NoHashIn(names, rest);
      SegmentsWithout(names + rest, '#');
      JoinWithout(segments[4..], '/', '#');
      CountNone(path, '#');
      CountNone(t, '#');
    }
  }

  /** A subdirectory comes back from its browser URL exactly when its names are
      proper segments and its path is kept. */
  lemma {:induction false} TreeUrlRoundTripIff(home: Option<string>, owner: string, repo: string, gitRef: string,
                                               path: string)
    ensures ParseSource(home, TreeUrl(owner, repo, gitRef, path)) ==
            Ok(GitSubdir(GithubCloneUrl(owner, repo), path, Some(gitRef)))
            <==> ProperSegment(owner) && ProperRepo(repo) && ProperSegment(gitRef) && KeptPath(path)
  {
    if ProperSegment(owner) && ProperRepo(repo) && ProperSegment(gitRef) {
      ProperTreeUrlIff(home, owner, repo, gitRef, path);
    } else {
      var names := Names(owner, repo, gitRef);
      GithubLeads();
      TreeUrlParts(owner, repo, gitRef, path);
      NamesCount(owner, repo, gitRef);
      if '#' in names {
        var i := Find(names, '#');
        CutAt(names, i);
        HashInNames(home, GITHUB, names[..i], names[i + 1..], owner, repo, gitRef, path);
      } else if ParseSource(home, GITHUB + names + path) ==
                Ok(GitSubdir(GithubCloneUrl(owner, repo), path, Some(gitRef))) {
        ReturnedAreProper(home, GITHUB, owner, repo, gitRef, path);
      }
    }
  }

  lemma {:induction false} CutAt(names: string, i: nat)
    requires i < |names| && names[i] == '#' && names[|names| - 1] == '/'
    ensures names == names[..i] + "#" + names[i + 1..]
    ensures names[i + 1..] != "" && names[i + 1..][|names[i + 1..]| - 1] == '/'
  {
  }
}
