/** Which wire protocols a provider serves for a model: the longest matching
    pattern of a built-in entry (crates/bitrouter-providers/src/entry.rs), and
    the most specific one of a pattern map (crates/bitrouter-sdk/src/config/pattern.rs).
    Strings are their UTF-8 bytes, as the length and the order of keys are. */
module ProtocolMapping {
  import opened Wrappers

  type Byte = b: int | 0 <= b < 256

  type Text = seq<Byte>

  const STAR: Byte := 42

  datatype Mapping<T> = Single(list: T) | PerModel(entries: seq<(Text, T)>)

  predicate EndsInStar(pat: Text) {
    pat != [] && pat[|pat| - 1] == STAR
  }

  /** A trailing star matches any rest; anything else is exact. */
  predicate Matches(pat: Text, id: Text) {
    if EndsInStar(pat) then pat[..|pat| - 1] <= id else pat == id
  }

  // ------------------------------------------------------ the order of a map

  predicate Before(a: Text, b: Text) {
    b != [] && (a == [] || a[0] < b[0] || (a[0] == b[0] && Before(a[1..], b[1..])))
  }

  /** The entries of an ordered map: each key once, in key order. */
  ghost predicate KeyOrdered<T>(entries: seq<(Text, T)>) {
    forall i, j :: 0 <= i < j < |entries| ==> Before(entries[i].0, entries[j].0)
  }

  lemma {:induction false} BeforeIsStrict(a: Text, b: Text)
    requires Before(a, b)
    ensures a != b && !Before(b, a)
    decreases |a|
  {
    if a != [] && a[0] == b[0] {
      BeforeIsStrict(a[1..], b[1..]);
    }
  }

  lemma {:induction false} KeysDiffer<T>(entries: seq<(Text, T)>, i: int, j: int)
    requires KeyOrdered(entries) && 0 <= i < |entries| && 0 <= j < |entries| && i != j
    ensures entries[i].0 != entries[j].0
  {
    if i < j {
      BeforeIsStrict(entries[i].0, entries[j].0);
    } else {
      BeforeIsStrict(entries[j].0, entries[i].0);
    }
  }

  /** Texts that differ only in their last byte are ordered by it. */
  lemma {:induction false} BeforeByLast(p: Text, a: Byte, b: Byte)
    ensures Before(p + [a], p + [b]) <==> a < b
  {
    if p != [] {
      assert (p + [a])[1..] == p[1..] + [a] && (p + [b])[1..] == p[1..] + [b];
      BeforeByLast(p[1..], a, b);
    } else {
      assert p + [a] == [a] && p + [b] == [b];
    }
  }

  // ------------------------------------------------------------- resolution

  /** Entry `k` matches, no matching entry has a longer pattern, and the matching
      entries before it have shorter ones. */
  ghost predicate FirstLongest<T>(entries: seq<(Text, T)>, id: Text, k: int) {
    && 0 <= k < |entries| && Matches(entries[k].0, id)
    && (forall j :: 0 <= j < |entries| && Matches(entries[j].0, id) ==> |entries[j].0| <= |entries[k].0|)
    && (forall j :: 0 <= j < k && Matches(entries[j].0, id) ==> |entries[j].0| < |entries[k].0|)
  }

  /** What resolving a model id answers. */
  ghost predicate Answers<T>(m: Mapping<T>, id: Text, r: Option<T>) {
    match m
    case Single(list) => r == Some(list)
    case PerModel(entries) =>
      match r
      case None => forall k :: 0 <= k < |entries| ==> !Matches(entries[k].0, id)
      case Some(list) => exists k :: FirstLongest(entries, id, k) && entries[k].1 == list
  }

  method Resolve<T>(m: Mapping<T>, id: Text) returns (r: Option<T>)
    ensures Answers(m, id, r)
  {
    match m {
      case Single(list) => return Some(list);
      case PerModel(entries) =>
        r := None;
        var best: Text := [];
        ghost var at := 0;
        for i := 0 to |entries|
          invariant r.None? ==> forall k :: 0 <= k < i ==> !Matches(entries[k].0, id)
          invariant r.Some? ==>
                    && 0 <= at < i && FirstLongest(entries[..i], id, at)
                    && best == entries[at].0 && r.value == entries[at].1
        {
          if Matches(entries[i].0, id) && (r.None? || |entries[i].0| > |best|) {
            best, r, at := entries[i].0, Some(entries[i].1), i;
          }
        }
        assert entries[..|entries|] == entries;
    }
  }

  /** A matching pattern is a wildcard over a prefix of the id, or the id. */
  lemma {:induction false} MatchShape(p: Text, id: Text)
    requires Matches(p, id)
    ensures if EndsInStar(p) then |p| <= |id| + 1 && p == id[..|p| - 1] + [STAR] else p == id
  {
    if EndsInStar(p) {
      assert p == p[..|p| - 1] + [p[|p| - 1]];
    }
  }

  /** The wildcard one byte shorter in prefix than the id. */
  function Tying(id: Text): Text
    requires id != []
  {
    id[..|id| - 1] + [STAR]
  }

  /** Two different matching patterns of the same length are the id itself and
      the wildcard one byte shorter. */
  lemma {:induction false} TieIsExactAgainstWildcard(p: Text, q: Text, id: Text)
    requires Matches(p, id) && Matches(q, id) && |p| == |q| && p != q
    ensures id != [] && !EndsInStar(id) && ((p == id && q == Tying(id)) || (q == id && p == Tying(id)))
  {
    MatchShape(p, id);
    MatchShape(q, id);
  }

  /** The keys hold both sides of the tie, and no longer wildcard beats both. */
  ghost predicate OpenTie<T>(entries: seq<(Text, T)>, id: Text) {
    && id != [] && !EndsInStar(id)
    && HasKey(entries, id) && HasKey(entries, Tying(id)) && !HasKey(entries, id + [STAR])
  }

  ghost predicate HasKey<T>(entries: seq<(Text, T)>, key: Text) {
    exists k :: 0 <= k < |entries| && entries[k].0 == key
  }

  /** One list for each key. */
  ghost predicate OneEach<T(!new)>(entries: seq<(Text, T)>) {
    forall i, j :: 0 <= i < |entries| && 0 <= j < |entries| && entries[i].0 == entries[j].0 ==>
      entries[i].1 == entries[j].1
  }

  ghost predicate SameEntries<T(!new)>(a: seq<(Text, T)>, b: seq<(Text, T)>) {
    forall e :: e in a <==> e in b
  }

  /** The same entries in another order. */
  ghost predicate Reordered<T(!new)>(a: seq<(Text, T)>, b: seq<(Text, T)>) {
    multiset(a) == multiset(b)
  }

  lemma {:induction false} ReorderedSame<T(!new)>(a: seq<(Text, T)>, b: seq<(Text, T)>)
    requires Reordered(a, b)
    ensures SameEntries(a, b)
  {
    forall e ensures e in a <==> e in b {
      assert e in a <==> e in multiset(a);
      assert e in b <==> e in multiset(b);
    }
  }

  /** The same entries in any order: the answer is the same outside an open tie. */
  lemma {:induction false} OrderDoesNotMatter<T(!new)>(a: seq<(Text, T)>, b: seq<(Text, T)>, id: Text, r: Option<T>,
                                                       s: Option<T>)
    requires SameEntries(a, b) && OneEach(a) && !OpenTie(a, id)
    requires Answers(PerModel(a), id, r) && Answers(PerModel(b), id, s)
    ensures r == s
  {
    SameAnswer(a, b, id, r, s);
    SameAnswer(b, a, id, s, r);
    if r.Some? && s.Some? {
      var k :| FirstLongest(a, id, k) && a[k].1 == r.value;
      var l :| FirstLongest(b, id, l) && b[l].1 == s.value;
      assert a[k] in b && b[l] in a;
      var k' :| 0 <= k' < |b| && b[k'] == a[k];
      var l' :| 0 <= l' < |a| && a[l'] == b[l];
      LongestIsOne(a, id, k, l');
    }
  }

  /** Two longest matching patterns are one, outside an open tie. */
  lemma {:induction false} LongestIsOne<T(!new)>(a: seq<(Text, T)>, id: Text, k: int, l: int)
    requires FirstLongest(a, id, k) && 0 <= l < |a| && Matches(a[l].0, id) && |a[l].0| == |a[k].0|
    requires !OpenTie(a, id)
    ensures a[k].0 == a[l].0
  {
    if a[k].0 != a[l].0 {
      TieIsExactAgainstWildcard(a[k].0, a[l].0, id);
      forall j | 0 <= j < |a| ensures a[j].0 != id + [STAR] {
        StarMatches(id);
      }
    }
  }

  lemma {:induction false} StarMatches(id: Text)
    ensures Matches(id + [STAR], id) && |id + [STAR]| == |id| + 1
  {
    assert (id + [STAR])[..|id + [STAR]| - 1] == id;
  }

  /** In an open tie, whichever side comes first wins. */
  lemma {:induction false} FirstOfTieWins<T(!new)>(a: seq<(Text, T)>, id: Text, k: int)
    requires OpenTie(a, id) && 0 <= k < |a| && (a[k].0 == id || a[k].0 == Tying(id))
    requires forall j :: 0 <= j < k ==> a[j].0 != id && a[j].0 != Tying(id)
    ensures FirstLongest(a, id, k)
  {
    TyingMatches(id);
    forall j | 0 <= j < |a| && Matches(a[j].0, id) ensures |a[j].0| <= |id| && (j < k ==> |a[j].0| < |id|) {
      LongMatch(a[j].0, id);
    }
  }

  lemma {:induction false} TyingMatches(id: Text)
    requires id != [] && !EndsInStar(id)
    ensures Matches(Tying(id), id) && Matches(id, id) && |Tying(id)| == |id| && Tying(id) != id
  {
    assert Tying(id)[..|Tying(id)| - 1] == id[..|id| - 1];
  }

  /** The order matters exactly in an open tie between different lists: then, and
      only then, two orders of the entries give two answers. */
  lemma {:induction false} OrderMattersIff<T(!new)>(a: seq<(Text, T)>, id: Text)
    requires OneEach(a)
    ensures TwoAnswers(a, id) <==> OpenTie(a, id) && TiedListsDiffer(a, id)
  {
    if OpenTie(a, id) && TiedListsDiffer(a, id) {
      var i, j :| 0 <= i < |a| && 0 <= j < |a| && a[i].0 == id && a[j].0 == Tying(id) && a[i].1 != a[j].1;
      TyingMatches(id);
      InFront(a, id, i);
      InFront(a, id, j);
      assert AnswersInSomeOrder(a, id, Some(a[i].1)) && AnswersInSomeOrder(a, id, Some(a[j].1));
    }
    if TwoAnswers(a, id) {
      var r, s :| AnswersInSomeOrder(a, id, r) && AnswersInSomeOrder(a, id, s) && r != s;
      var b :| Reordered(a, b) && Answers(PerModel(b), id, r);
      var c :| Reordered(a, c) && Answers(PerModel(c), id, s);
      ReorderedSame(a, b);
      ReorderedSame(a, c);
      OneEachKept(a, b);
      OpenTieKept(a, b, id);
      if !OpenTie(a, id) {
        OrderDoesNotMatter(b, c, id, r, s);
      } else if !TiedListsDiffer(a, id) {
        TiedAnswer(a, b, id, r);
        TiedAnswer(a, c, id, s);
      }
    }
  }

  /** The answer when the entries come in some order. */
  ghost predicate AnswersInSomeOrder<T(!new)>(a: seq<(Text, T)>, id: Text, r: Option<T>) {
    exists b :: Reordered(a, b) && Answers(PerModel(b), id, r)
  }

  ghost predicate TwoAnswers<T(!new)>(a: seq<(Text, T)>, id: Text) {
    exists r, s :: AnswersInSomeOrder(a, id, r) && AnswersInSomeOrder(a, id, s) && r != s
  }

  ghost predicate TiedListsDiffer<T(!new)>(a: seq<(Text, T)>, id: Text)
    requires id != []
  {
    exists i, j :: 0 <= i < |a| && 0 <= j < |a| && a[i].0 == id && a[j].0 == Tying(id) && a[i].1 != a[j].1
  }

  lemma {:induction false} MovedToFront<T(!new)>(x: seq<(Text, T)>, e: (Text, T), y: seq<(Text, T)>)
    ensures Reordered(x + ([e] + y), [e] + (x + y))
  {
  }

  /** Moved to the front, a side of the tie wins. */
  lemma {:induction false} InFront<T(!new)>(a: seq<(Text, T)>, id: Text, k: int)
    requires OpenTie(a, id) && 0 <= k < |a| && (a[k].0 == id || a[k].0 == Tying(id))
    ensures AnswersInSomeOrder(a, id, Some(a[k].1))
  {
    var b := [a[k]] + (a[..k] + a[k + 1..]);
    assert a == a[..k] + ([a[k]] + a[k + 1..]);
    MovedToFront(a[..k], a[k], a[k + 1..]);
    ReorderedSame(a, b);
    OpenTieKept(a, b, id);
    FirstOfTieWins(b, id, 0);
    assert FirstLongest(b, id, 0) && b[0].1 == a[k].1;
  }

  lemma {:induction false} HasKeyKept<T(!new)>(a: seq<(Text, T)>, b: seq<(Text, T)>, key: Text)
    requires SameEntries(a, b)
    ensures HasKey(a, key) <==> HasKey(b, key)
  {
    if k :| 0 <= k < |a| && a[k].0 == key {
      assert a[k] in b;
    }
    if k :| 0 <= k < |b| && b[k].0 == key {
      assert b[k] in a;
    }
  }

  lemma {:induction false} OpenTieKept<T(!new)>(a: seq<(Text, T)>, b: seq<(Text, T)>, id: Text)
    requires SameEntries(a, b)
    ensures OpenTie(a, id) <==> OpenTie(b, id)
  {
    HasKeyKept(a, b, id);
    HasKeyKept(a, b, id + [STAR]);
    if id != [] {
      HasKeyKept(a, b, Tying(id));
    }
  }

  lemma {:induction false} OneEachKept<T(!new)>(a: seq<(Text, T)>, b: seq<(Text, T)>)
    requires SameEntries(a, b) && OneEach(a)
    ensures OneEach(b)
  {
    forall i, j | 0 <= i < |b| && 0 <= j < |b| && b[i].0 == b[j].0 ensures b[i].1 == b[j].1 {
      assert b[i] in a && b[j] in a;
    }
  }

  /** In an open tie between equal lists the answer is that list. */
  lemma {:induction false} TiedAnswer<T(!new)>(a: seq<(Text, T)>, b: seq<(Text, T)>, id: Text, r: Option<T>)
    requires OpenTie(a, id) && !TiedListsDiffer(a, id) && OneEach(a) && SameEntries(a, b) && Answers(PerModel(b), id, r)
    ensures r.Some? && forall i :: 0 <= i < |a| && a[i].0 == id ==> a[i].1 == r.value
  {
    TyingMatches(id);
    OpenTieKept(a, b, id);
    var e :| 0 <= e < |b| && b[e].0 == id;
    var k :| FirstLongest(b, id, k) && b[k].1 == r.value;
    LongMatch(b[k].0, id);
    assert b[k] in a && (b[k].0 == id || b[k].0 == Tying(id));
  }

  lemma {:induction false} SameAnswer<T(!new)>(a: seq<(Text, T)>, b: seq<(Text, T)>, id: Text, r: Option<T>,
                                               s: Option<T>)
    requires SameEntries(a, b)
    requires Answers(PerModel(a), id, r) && Answers(PerModel(b), id, s)
    ensures r.Some? ==> s.Some?
  {
    if r.Some? {
      var k :| FirstLongest(a, id, k) && a[k].1 == r.value;
      assert a[k] in b;
      var k' :| 0 <= k' < |b| && b[k'] == a[k];
    }
  }

  /** The longest matching patterns, spelled out. */
  lemma {:induction false} LongMatch(p: Text, id: Text)
    requires Matches(p, id)
    ensures |p| <= |id| + 1
    ensures |p| == |id| + 1 ==> p == id + [STAR]
    ensures |p| == |id| ==> p == id || (id != [] && p == Tying(id))
  {
    MatchShape(p, id);
    assert id[..|id|] == id;
  }

  /** In key order the tie goes to the wildcard exactly when the id's last byte
      comes after the star, whatever longer wildcard may beat both. */
  lemma {:induction false} TieInKeyOrder<T>(entries: seq<(Text, T)>, id: Text, exact: int, tying: int)
    requires KeyOrdered(entries) && id != [] && !EndsInStar(id)
    requires 0 <= exact < |entries| && entries[exact].0 == id
    requires 0 <= tying < |entries| && entries[tying].0 == Tying(id)
    ensures !HasKey(entries, id + [STAR]) ==> FirstLongest(entries, id, if id[|id| - 1] > STAR then tying else exact)
  {
    var n := |id| - 1;
    assert id == id[..n] + [id[n]];
    BeforeByLast(id[..n], STAR, id[n]);
    BeforeByLast(id[..n], id[n], STAR);
    if exact < tying {
      BeforeIsStrict(id, Tying(id));
    } else {
      BeforeIsStrict(Tying(id), id);
    }
    if !HasKey(entries, id + [STAR]) {
      forall j | 0 <= j < |entries| && Matches(entries[j].0, id)
        ensures |entries[j].0| <= |id| && (j != exact && j != tying ==> |entries[j].0| < |id|)
      {
        LongMatch(entries[j].0, id);
        if j != exact && j != tying {
          KeysDiffer(entries, j, exact);
          KeysDiffer(entries, j, tying);
        }
      }
    }
  }
}
