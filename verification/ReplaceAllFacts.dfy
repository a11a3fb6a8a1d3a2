/** What one replace-all pass does to a text: every word found in its output,
    unless it can overlap the inserted mark, was already in the input
    (plugins/bitrouter-guardrails/src/rules.rs, `RuleSet::redact`). */
module ReplaceAllFacts {
  import opened Strings
  import opened GuardrailRules

  /** Laid over `mark` with `w[0]` at its index `d`, the word `w` agrees with it
      on every position they share. */
  predicate AlignsAt(w: string, mark: string, d: int) {
    forall j :: 0 <= j < |w| && 0 <= j + d < |mark| ==> w[j] == mark[j + d]
  }

  /** In some text, the word can overlap an inserted mark. */
  predicate Touches(w: string, mark: string) {
    exists d :: -|w| < d < |mark| && AlignsAt(w, mark, d)
  }

  lemma {:induction false} NoSharedCharacter(w: Word, mark: string)
    requires mark != "" && forall c :: c in w ==> c !in mark
    ensures !Touches(w, mark)
  {
    forall d | -|w| < d < |mark| ensures !AlignsAt(w, mark, d) {
      var j := if d < 0 then -d else 0;
      assert w[j] in w && mark[j + d] in mark;
    }
  }

  // --------------------------------------------------------- pieces of strings

  lemma {:induction false} PrefixTail(a: string, c: char, b: string)
    requires a != "" && a <= [c] + b
    ensures a[0] == c && a[1..] <= b
  {
    var whole := [c] + b;
    assert a == whole[..|a|];
    assert a[1..] == b[..|a| - 1];
  }

  lemma {:induction false} PrefixCons(w: string, t: string)
    requires w != "" && t != "" && w[0] == t[0] && w[1..] <= t[1..]
    ensures w <= t && OccursAt(w, t, 0) && Occurs(w, t)
  {
    assert w == [t[0]] + w[1..] && t == [t[0]] + t[1..];
    assert t[0..|w|] == w;
    assert OccursAt(w, t, 0);
  }

  lemma {:induction false} SuffixCons(t: string, n: nat, len: nat)
    requires n + len <= |t|
    ensures t[n..][|t| - n - len..] == t[|t| - len..]
  {
  }

  lemma {:induction false} OccursInTail(w: string, t: string, n: nat)
    requires n <= |t|
    ensures Occurs(w, t[n..]) ==> Occurs(w, t)
  {
    if Occurs(w, t[n..]) {
      OccursInside(w, t[..n], t[n..], "");
      assert t[..n] + t[n..] + "" == t;
    }
  }

  /** An occurrence that starts inside a leading mark lines up with it. */
  lemma {:induction false} OverHead(w: Word, mark: string, rest: string, i: nat)
    requires i < |mark|
    requires OccursAt(w, mark + rest, i) || (mark + rest)[i..] <= w
    ensures Touches(w, mark) && AlignsAt(w, mark, i)
  {
    var out := mark + rest;
    forall j | 0 <= j < |w| && 0 <= j + i < |mark| ensures w[j] == mark[j + i] {
      if OccursAt(w, out, i) {
        assert out[i..i + |w|][j] == out[i + j];
      } else {
        assert out[i..][j] == out[i + j];
      }
    }
    assert AlignsAt(w, mark, i);
  }

  /** A word whose part from index `m` on meets a leading mark lines up with it. */
  lemma {:induction false} IntoHead(w: Word, mark: string, rest: string, m: nat, n: nat)
    requires m < n <= |w| && mark != ""
    requires w[m..n] <= mark + rest || (n == |w| && mark + rest <= w[m..]) || mark + rest == w[m..n]
    requires |mark| <= n - m || n == |w|
    ensures Touches(w, mark)
  {
    var d := -(m as int);
    forall j | 0 <= j < |w| && 0 <= j + d < |mark| ensures w[j] == mark[j + d] {
      var out := mark + rest;
      assert out[j - m] == w[m + (j - m)];
    }
    assert AlignsAt(w, mark, d);
  }

  // --------------------------------------- tracing the output back to the input

  /** What the scan puts out first, and how much of the text that accounts for. */
  function Head(p: Pattern, t: string, mark: string): (string, nat)
    requires t != ""
    ensures 0 < Head(p, t, mark).1 <= |t|
    ensures ReplaceAll(p, t, mark) == Head(p, t, mark).0 + ReplaceAll(p, t[Head(p, t, mark).1..], mark)
  {
    var n := MatchLength(p, t);
    if n > 0 then (mark, n) else ([t[0]], 1)
  }

  /** If the output begins with the end of an untouchable word, so does the input. */
  lemma {:induction false} PrefixSurvives(p: Pattern, t: string, mark: string, w: Word, m: nat)
    requires mark != "" && !Touches(w, mark)
    requires m <= |w| && w[m..] <= ReplaceAll(p, t, mark)
    ensures w[m..] <= t
    decreases |t|
  {
    if m < |w| {
      var (head, n) := Head(p, t, mark);
      var rest := ReplaceAll(p, t[n..], mark);
      if MatchLength(p, t) > 0 {
        assert w[m..|w|] == w[m..];
        IntoHead(w, mark, rest, m, |w|);
      } else {
        PrefixTail(w[m..], t[0], rest);
        assert w[m..][1..] == w[m + 1..];
        PrefixSurvives(p, t[1..], mark, w, m + 1);
        PrefixCons(w[m..], t);
      }
    }
  }

  /** An output that is wholly a stretch of an untouchable word is the input itself. */
  lemma {:induction false} WholeSurvives(p: Pattern, t: string, mark: string, w: Word, m: nat, n: nat)
    requires mark != "" && !Touches(w, mark)
    requires m <= n <= |w| && ReplaceAll(p, t, mark) == w[m..n]
    ensures ReplaceAll(p, t, mark) == t
    decreases |t|
  {
    if t != "" {
      var (head, k) := Head(p, t, mark);
      var rest := ReplaceAll(p, t[k..], mark);
      if MatchLength(p, t) > 0 {
        IntoHead(w, mark, rest, m, n);
      } else {
        assert rest == w[m..n][1..] == w[m + 1..n];
        WholeSurvives(p, t[1..], mark, w, m + 1, n);
      }
    }
  }

  /** If the output ends with the start of an untouchable word, so does the input. */
  lemma {:induction false} SuffixSurvives(p: Pattern, t: string, mark: string, w: Word, k: nat)
    requires mark != "" && !Touches(w, mark)
    requires k <= |ReplaceAll(p, t, mark)| && ReplaceAll(p, t, mark)[k..] <= w
    ensures var len := |ReplaceAll(p, t, mark)| - k;
            len <= |t| && t[|t| - len..] == ReplaceAll(p, t, mark)[k..]
    decreases |t|
  {
    var out := ReplaceAll(p, t, mark);
    var len := |out| - k;
    if k == 0 {
      DropNone(out);
      PrefixIsTake(out, w);
      WholeSurvives(p, t, mark, w, 0, |out|);
      DropNone(t);
    } else if k < |out| {
      var (head, n) := Head(p, t, mark);
      var rest := ReplaceAll(p, t[n..], mark);
      if k < |head| {
        OverHead(w, mark, rest, k);
      } else {
        DropPast(head, rest, k);
        SuffixSurvives(p, t[n..], mark, w, k - |head|);
        SuffixCons(t, n, len);
      }
    } else {
      DropAll(out);
      DropAll(t);
    }
  }

  /** Replacing never creates an occurrence of an untouchable word, and leaves
      none of its own words. */
  lemma {:induction false} NoNewOccurrence(p: Pattern, t: string, mark: string, w: Word, i: nat)
    requires mark != "" && !Touches(w, mark)
    requires OccursAt(w, ReplaceAll(p, t, mark), i)
    ensures Occurs(w, t)
    ensures w !in p
    decreases |t|
  {
    var (head, n) := Head(p, t, mark);
    var rest := ReplaceAll(p, t[n..], mark);
    if i >= |head| {
      OccursAtRight(w, head, rest, i);
      NoNewOccurrence(p, t[n..], mark, w, i - |head|);
      OccursInTail(w, t, n);
    } else if MatchLength(p, t) > 0 {
      OverHead(w, mark, rest, i);
    } else {
      assert w == (head + rest)[0..|w|];
      PrefixTail(w, t[0], rest);
      PrefixSurvives(p, t[1..], mark, w, 1);
      PrefixCons(w, t);
      assert forall k :: 0 <= k < |p| ==> !OccursAt(p[k], t, 0);
    }
  }

  /** A text without a match is left alone. */
  lemma {:induction false} NothingToReplace(p: Pattern, t: string, mark: string)
    requires !IsMatch(p, t)
    ensures ReplaceAll(p, t, mark) == t
    decreases |t|
  {
    if t != "" {
      forall k | 0 <= k < |p| ensures !OccursAt(p[k], t, 0) && !Occurs(p[k], t[1..]) {
        assert !Occurs(p[k], t);
        OccursInTail(p[k], t, 1);
      }
      NothingToReplace(p, t[1..], mark);
      HeadAndTail(t);
    }
  }

  // ------------------------------------- when is a one-word rule always clean?

  /** The part of `w` that starts before the mark it is laid over at `d`. */
  function Lead(w: string, d: int): string
    requires -|w| < d
  {
    if d < 0 then w[..-d] else ""
  }

  /** The part of `w` that runs past the mark it is laid over at `d`. */
  function Overhang(w: string, mark: string, d: int): string
    requires d < |mark|
  {
    if |mark| - d < |w| then w[|mark| - d..] else ""
  }

  /** `w` can be put together again from a mark and the text around it: it lines
      up with the mark at `d`, and when it starts before the mark, no earlier
      match swallows that start. */
  predicate RebuiltAt(w: Word, mark: string, d: int) {
    && -|w| < d < |mark|
    && AlignsAt(w, mark, d)
    && forall i :: 0 <= i < |Lead(w, d)| ==> !OccursAt(w, Lead(w, d) + w + Overhang(w, mark, d), i)
  }

  ghost predicate Rebuildable(w: Word, mark: string) {
    exists d :: RebuiltAt(w, mark, d)
  }

  /** Some text still shows the word after the pass. */
  ghost predicate Leaks(w: Word, mark: string) {
    exists t :: Occurs(w, ReplaceAll([w], t, mark))
  }

  /** Up to the first match, the scan copies the text. */
  lemma {:induction false} ScanCopies(w: Word, t: string, mark: string, m: nat)
    requires m <= |t|
    requires forall i :: 0 <= i < m ==> !OccursAt(w, t, i)
    ensures ReplaceAll([w], t, mark) == t[..m] + ReplaceAll([w], t[m..], mark)
  {
    if m == 0 {
      DropNone(t);
      EmptyFirst(ReplaceAll([w], t, mark));
    } else {
      HeadAndTail(t);
      TakeDropTail(t, m);
      forall i | 0 <= i < m - 1 ensures !OccursAt(w, t[1..], i) {
        OccursAtRight(w, [t[0]], t[1..], i + 1);
      }
      ScanCopies(w, t[1..], mark, m - 1);
      Assoc([t[0]], t[1..][..m - 1], ReplaceAll([w], t[m..], mark));
    }
  }

  lemma {:induction false} MatchAtHead(w: Word, more: string, mark: string)
    ensures ReplaceAll([w], w + more, mark) == mark + ReplaceAll([w], more, mark)
  {
    assert OccursAt([w][0], w + more, 0);
    assert (w + more)[|w|..] == more;
  }

  /** The output around the first match. */
  lemma {:induction false} SplitAtMatch(w: Word, before: string, more: string, mark: string)
    requires forall i :: 0 <= i < |before| ==> !OccursAt(w, before + w + more, i)
    ensures ReplaceAll([w], before + w + more, mark) == before + (mark + ReplaceAll([w], more, mark))
  {
    var t := before + w + more;
    ScanCopies(w, t, mark, |before|);
    assert t[..|before|] == before && t[|before|..] == w + more;
    MatchAtHead(w, more, mark);
  }

  /** Laid over `mark` at `d`, a word is completed by its lead and overhang. */
  lemma {:induction false} LaidOver(w: string, mark: string, d: int)
    requires -|w| < d < |mark| && AlignsAt(w, mark, d)
    ensures OccursAt(w, Lead(w, d) + (mark + Overhang(w, mark, d)), if d < 0 then 0 else d)
  {
    var out := Lead(w, d) + (mark + Overhang(w, mark, d));
    var q := if d < 0 then 0 else d;
    forall j | 0 <= j < |w| ensures out[q + j] == w[j] {
      if j + d < 0 {
        assert out[q + j] == Lead(w, d)[j];
      } else if j + d < |mark| {
        assert out[q + j] == mark[j + d];
      } else {
        assert out[q + j] == Overhang(w, mark, d)[j + d - |mark|];
      }
    }
    assert out[q..q + |w|] == w;
  }

  lemma {:induction false} RebuiltText(w: Word, mark: string, d: int)
    requires RebuiltAt(w, mark, d)
    ensures Leaks(w, mark)
  {
    var lead, over := Lead(w, d), Overhang(w, mark, d);
    SplitAtMatch(w, lead, over, mark);
    NothingToReplace([w], over, mark);
    LaidOver(w, mark, d);
    assert Occurs(w, ReplaceAll([w], lead + w + over, mark));
  }

  lemma {:induction false} FirstOccurrence(w: Word, t: string, n: nat) returns (m: nat)
    requires n <= |t|
    requires forall i :: 0 <= i < n ==> !OccursAt(w, t, i)
    requires Occurs(w, t)
    ensures OccursAt(w, t, m) && forall i :: 0 <= i < m ==> !OccursAt(w, t, i)
    decreases |t| - n
  {
    if OccursAt(w, t, n) || n == |t| {
      m := n;
    } else {
      m := FirstOccurrence(w, t, n + 1);
    }
  }

  lemma {:induction false} SurvivorIsRebuilt(w: Word, t: string, mark: string, i: nat)
    requires mark != "" && OccursAt(w, ReplaceAll([w], t, mark), i)
    ensures Rebuildable(w, mark)
    decreases |t|
  {
    var (head, n) := Head([w], t, mark);
    var rest := ReplaceAll([w], t[n..], mark);
    if i >= |head| {
      OccursAtRight(w, head, rest, i);
      SurvivorIsRebuilt(w, t[n..], mark, i - |head|);
    } else if MatchLength([w], t) > 0 {
      OverHead(w, mark, rest, i);
      assert RebuiltAt(w, mark, i);
    } else {
      assert !OccursAt([w][0], t, 0);
      assert w == ReplaceAll([w], t, mark)[0..|w|];
      SurvivorBeforeMatch(w, t, mark);
    }
  }

  lemma {:induction false} SpelledAcross(w: string, before: string, mark: string, after: string)
    requires w <= before + (mark + after)
    ensures AlignsAt(w, mark, -|before|)
    ensures |before| <= |w| ==> w[..|before|] == before
    ensures |w| <= |before| ==> w <= before
  {
    var out := before + (mark + after);
    assert forall j :: 0 <= j < |w| ==> w[j] == out[j];
  }

  lemma {:induction false} PrefixTransfers(w: string, before: string, more: string)
    requires w <= before
    ensures OccursAt(w, before + w + more, 0)
  {
    var t := before + w + more;
    assert t[0..|w|] == before[..|w|];
  }

  /** The word at the very start of an output whose first character was copied. */
  lemma {:induction false} SurvivorBeforeMatch(w: Word, t: string, mark: string)
    requires mark != "" && !OccursAt(w, t, 0)
    requires w <= ReplaceAll([w], t, mark)
    ensures Rebuildable(w, mark)
  {
    if !Occurs(w, t) {
      NothingToReplace([w], t, mark);
      OccursFirst(w, t);
      assert false;
    }
    var m := FirstOccurrence(w, t, 0);
    assert t == t[..m] + w + t[m + |w|..];
    SurvivorAroundMatch(w, t[..m], t[m + |w|..], mark);
  }

  lemma {:induction false} SurvivorAroundMatch(w: Word, before: string, more: string, mark: string)
    requires mark != "" && before != ""
    requires forall i :: 0 <= i < |before| ==> !OccursAt(w, before + w + more, i)
    requires w <= ReplaceAll([w], before + w + more, mark)
    ensures Rebuildable(w, mark)
  {
    SplitAtMatch(w, before, more, mark);
    SpelledAcross(w, before, mark, ReplaceAll([w], more, mark));
    if w <= before {
      PrefixTransfers(w, before, more);
      assert false;
    }
    NoMatchInLead(w, before, mark, more);
    assert RebuiltAt(w, mark, -|before|);
  }

  lemma {:induction false} NoMatchInLead(w: Word, before: string, mark: string, more: string)
    requires |before| < |w| && w[..|before|] == before
    requires forall i :: 0 <= i < |before| ==> !OccursAt(w, before + w + more, i)
    requires mark != ""
    ensures Lead(w, -|before|) == before
    ensures var over := Overhang(w, mark, -|before|);
            forall i :: 0 <= i < |before| ==> !OccursAt(w, before + w + over, i)
  {
    var over := Overhang(w, mark, -|before|);
    forall i | 0 <= i < |before| ensures !OccursAt(w, before + w + over, i) {
      OccursAtLeft(w, before + w, over, i);
      OccursAtLeft(w, before + w, more, i);
    }
  }

  /** A one-word rule leaves its word behind in some text exactly when the word
      can be rebuilt around a mark. */
  lemma {:induction false} OneWordRuleLeaksIff(w: Word, mark: string)
    requires mark != ""
    ensures Leaks(w, mark) <==> Rebuildable(w, mark)
  {
    if Leaks(w, mark) {
      var t :| Occurs(w, ReplaceAll([w], t, mark));
      var out := ReplaceAll([w], t, mark);
      var i :| 0 <= i <= |out| - |w| && OccursAt(w, out, i);
      SurvivorIsRebuilt(w, t, mark, i);
    } else if Rebuildable(w, mark) {
      var d :| RebuiltAt(w, mark, d);
      RebuiltText(w, mark, d);
    }
  }
}
