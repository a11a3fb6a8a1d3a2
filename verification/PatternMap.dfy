/** The pattern map of a provider configuration, and what becomes of a built-in
    protocol mapping in it (crates/bitrouter-sdk/src/config/pattern.rs,
    crates/bitrouter-providers/src/apply.rs). */
module PatternMap {
  import opened Wrappers
  import opened ProtocolMapping

  datatype Pattern = Wildcard | Prefix(prefix: Text) | Exact(literal: Text)

  type Entries<T> = seq<(Pattern, T)>

  const USIZE_MAX: nat := 0xffff_ffff_ffff_ffff

  function Parse(s: Text): Pattern {
    if s == [STAR] then Wildcard
    else if EndsInStar(s) then Prefix(s[..|s| - 1])
    else Exact(s)
  }

  predicate PatternMatches(p: Pattern, name: Text) {
    match p
    case Wildcard => true
    case Prefix(prefix) => prefix <= name
    case Exact(literal) => literal == name
  }

  function Specificity(p: Pattern): nat {
    match p
    case Wildcard => 0
    case Prefix(prefix) => |prefix| + 1
    case Exact(_) => USIZE_MAX
  }

  /** The position of the most specific matching entry, the last of them if several are. */
  function BestEntry<T>(entries: Entries<T>, name: Text): (r: Option<nat>)
    ensures r.Some? ==> r.value < |entries|
  {
    if entries == [] then None
    else
      var n := |entries| - 1;
      var best := BestEntry(entries[..n], name);
      if PatternMatches(entries[n].0, name)
         && (best.None? || Specificity(entries[n].0) >= Specificity(entries[best.value].0))
      then Some(n) else best
  }

  function ResolvePattern<T>(entries: Entries<T>, name: Text): Option<T> {
    var best := BestEntry(entries, name);
    if best.Some? then Some(entries[best.value].1) else None
  }

  lemma {:induction false} BestIsMostSpecific<T>(entries: Entries<T>, name: Text)
    ensures var best := BestEntry(entries, name);
            if best.None? then forall k :: 0 <= k < |entries| ==> !PatternMatches(entries[k].0, name)
            else && PatternMatches(entries[best.value].0, name)
                 && forall k :: 0 <= k < |entries| && PatternMatches(entries[k].0, name) ==>
                                  Specificity(entries[k].0) <= Specificity(entries[best.value].0)
  {
    if entries != [] {
      var n := |entries| - 1;
      BestIsMostSpecific(entries[..n], name);
      assert forall k :: 0 <= k < n ==> entries[..n][k] == entries[k];
    }
  }

  function ParsedEntries<T>(entries: seq<(Text, T)>): Entries<T> {
    seq(|entries|, k requires 0 <= k < |entries| => (Parse(entries[k].0), entries[k].1))
  }

  /** The pattern map of a built-in mapping. */
  function Translated<T>(m: Mapping<T>): Entries<T> {
    match m
    case Single(list) => [(Wildcard, list)]
    case PerModel(entries) => ParsedEntries(entries)
  }

  method ToPatternMap<T>(m: Mapping<T>) returns (map_: Entries<T>)
    ensures map_ == Translated(m)
  {
    map_ := [];
    match m {
      case Single(list) => map_ := map_ + [(Wildcard, list)];
      case PerModel(entries) =>
        for i := 0 to |entries|
          invariant map_ == ParsedEntries(entries[..i])
        {
          map_ := map_ + [(Parse(entries[i].0), entries[i].1)];
        }
        assert entries[..|entries|] == entries;
    }
  }

  // -------------------------------------------- the two resolutions compared

  /** No key is so long that its specificity reaches that of a literal. */
  ghost predicate Fits<T>(entries: seq<(Text, T)>) {
    forall k :: 0 <= k < |entries| ==> |entries[k].0| < USIZE_MAX
  }

  lemma {:induction false} ParseKeepsMatches(key: Text, id: Text)
    ensures PatternMatches(Parse(key), id) <==> Matches(key, id)
  {
    if key == [STAR] {
      assert key[..0] <= id;
    }
  }

  /** The key of the id itself is there, but a wildcard is the first longest match. */
  ghost predicate Shadowed<T>(entries: seq<(Text, T)>, id: Text) {
    && !EndsInStar(id) && HasKey(entries, id)
    && (HasKey(entries, id + [STAR]) || (id != [] && id[|id| - 1] > STAR && HasKey(entries, Tying(id))))
  }

  /** Without the literal, the most specific wildcard is the longest. */
  lemma {:induction false} LongestWildcardIsBest<T>(entries: seq<(Text, T)>, id: Text, k: int, best: int)
    requires KeyOrdered(entries) && FirstLongest(entries, id, k)
    requires forall j :: 0 <= j < |entries| && Matches(entries[j].0, id) ==> EndsInStar(entries[j].0)
    requires 0 <= best < |entries| && Matches(entries[best].0, id)
    requires Specificity(Parse(entries[k].0)) <= Specificity(Parse(entries[best].0))
    ensures k == best
  {
    MatchShape(entries[k].0, id);
    MatchShape(entries[best].0, id);
    assert |entries[k].0| == |entries[best].0| ==> entries[k].0 == entries[best].0;
    if k != best {
      KeysDiffer(entries, k, best);
    }
  }

  lemma {:induction false} LiteralIsBest<T>(entries: seq<(Text, T)>, id: Text, exact: int)
    requires KeyOrdered(entries) && Fits(entries) && !EndsInStar(id)
    requires 0 <= exact < |entries| && entries[exact].0 == id
    ensures ResolvePattern(ParsedEntries(entries), id) == Some(entries[exact].1)
  {
    var parsed := ParsedEntries(entries);
    BestIsMostSpecific(parsed, id);
    assert parsed[exact].0 == Exact(id);
    var best := BestEntry(parsed, id).value;
    assert Parse(entries[best].0).Exact?;
    if best != exact {
      KeysDiffer(entries, best, exact);
    }
  }

  /** A wildcard one byte longer than the id wins over everything. */
  lemma {:induction false} LongerAnswer<T>(entries: seq<(Text, T)>, id: Text, k: int)
    requires FirstLongest(entries, id, k) && HasKey(entries, id + [STAR])
    ensures entries[k].0 == id + [STAR]
  {
    var w :| 0 <= w < |entries| && entries[w].0 == id + [STAR];
    assert (id + [STAR])[..|id|] == id;
    assert Matches(entries[w].0, id);
    LongMatch(entries[k].0, id);
  }

  /** Without it the answer is the literal, or the wildcard it ties with. */
  lemma {:induction false} TiedAnswer<T>(entries: seq<(Text, T)>, id: Text, exact: int, k: int)
    requires KeyOrdered(entries) && !EndsInStar(id) && !HasKey(entries, id + [STAR])
    requires 0 <= exact < |entries| && entries[exact].0 == id
    requires FirstLongest(entries, id, k)
    ensures k == exact || (id != [] && entries[k].0 == Tying(id))
  {
    LongMatch(entries[k].0, id);
    assert Matches(entries[exact].0, id);
    if k != exact {
      KeysDiffer(entries, k, exact);
    }
  }

  /** Where the literal is the first longest match unless it is shadowed. */
  lemma {:induction false} LiteralAnswer<T>(entries: seq<(Text, T)>, id: Text, exact: int, k: int)
    requires KeyOrdered(entries) && !EndsInStar(id)
    requires 0 <= exact < |entries| && entries[exact].0 == id
    requires FirstLongest(entries, id, k)
    ensures if Shadowed(entries, id) then entries[k].0 == id + [STAR] || (id != [] && entries[k].0 == Tying(id))
            else k == exact
  {
    if HasKey(entries, id + [STAR]) {
      LongerAnswer(entries, id, k);
    } else {
      TiedAnswer(entries, id, exact, k);
      if id != [] && HasKey(entries, Tying(id)) {
        var t :| 0 <= t < |entries| && entries[t].0 == Tying(id);
        TieInKeyOrder(entries, id, exact, t);
        OneFirstLongest(entries, id, k, if id[|id| - 1] > STAR then t else exact);
      }
    }
  }

  lemma {:induction false} OneFirstLongest<T>(entries: seq<(Text, T)>, id: Text, k: int, l: int)
    requires FirstLongest(entries, id, k) && FirstLongest(entries, id, l)
    ensures k == l
  {
  }

  /** Both resolutions answer alike, except when a wildcard shadows the literal:
      then the pattern map prefers the literal and the built-in mapping does not. */
  lemma {:induction false} ResolutionsAgree<T>(entries: seq<(Text, T)>, id: Text, r: Option<T>)
    requires KeyOrdered(entries) && Fits(entries)
    requires Answers(PerModel(entries), id, r)
    ensures !Shadowed(entries, id) ==> r == ResolvePattern(ParsedEntries(entries), id)
    ensures Shadowed(entries, id) ==>
              exists exact, wild :: && 0 <= exact < |entries| && 0 <= wild < |entries|
                                    && entries[exact].0 == id && EndsInStar(entries[wild].0)
                                    && ResolvePattern(ParsedEntries(entries), id) == Some(entries[exact].1)
                                    && r == Some(entries[wild].1)
  {
    var parsed := ParsedEntries(entries);
    BestIsMostSpecific(parsed, id);
    forall k | 0 <= k < |entries| ensures PatternMatches(parsed[k].0, id) <==> Matches(entries[k].0, id) {
      ParseKeepsMatches(entries[k].0, id);
    }
    if r.Some? {
      var k :| FirstLongest(entries, id, k) && entries[k].1 == r.value;
      assert PatternMatches(parsed[k].0, id);
      var best := BestEntry(parsed, id).value;
      if !EndsInStar(id) && HasKey(entries, id) {
        var exact :| 0 <= exact < |entries| && entries[exact].0 == id;
        LiteralIsBest(entries, id, exact);
        LiteralAnswer(entries, id, exact, k);
      } else {
        LongestWildcardIsBest(entries, id, k, best);
      }
    }
  }
}
