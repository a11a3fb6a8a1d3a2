/** What redaction guarantees: which words it removes, when it changes a text,
    and when redacting a stream delta by delta equals redacting the whole. */
module GuardrailRedaction {
  import opened Wrappers
  import opened Strings
  import opened GuardrailRules
  import opened GuardrailStreaming
  import opened ReplaceAllFacts

  // ------------------------------------------------------------ the rule list

  predicate RedactWordAt(rules: seq<GuardrailRule>, k: int, j: int, w: string) {
    0 <= k < |rules| && rules[k].action.Redact? && 0 <= j < |rules[k].pattern| && rules[k].pattern[j] == w
  }

  /** `w` is one of the words of a `Redact` rule. */
  ghost predicate RedactWord(rules: seq<GuardrailRule>, w: string) {
    exists k, j :: RedactWordAt(rules, k, j, w)
  }

  /** No `Redact` word can overlap the placeholder. */
  ghost predicate Untouchable(rules: seq<GuardrailRule>) {
    forall w :: RedactWord(rules, w) ==> !Touches(w, REDACTION)
  }

  ghost predicate NoRedactWordIn(rules: seq<GuardrailRule>, t: string) {
    forall w :: RedactWord(rules, w) ==> !Occurs(w, t)
  }

  lemma {:induction false} RedactWordTail(rules: seq<GuardrailRule>)
    requires rules != []
    ensures forall w :: RedactWord(rules[1..], w) ==> RedactWord(rules, w)
    ensures rules[0].action.Redact? ==> forall j :: 0 <= j < |rules[0].pattern| ==>
            RedactWord(rules, rules[0].pattern[j])
    ensures forall w :: RedactWord(rules, w) ==>
                          RedactWord(rules[1..], w) || (rules[0].action.Redact? && w in rules[0].pattern)
  {
    forall w | RedactWord(rules[1..], w) ensures RedactWord(rules, w) {
      var k, j :| RedactWordAt(rules[1..], k, j, w);
      assert RedactWordAt(rules, k + 1, j, w);
    }
    if rules[0].action.Redact? {
      forall j | 0 <= j < |rules[0].pattern| ensures RedactWord(rules, rules[0].pattern[j]) {
        assert RedactWordAt(rules, 0, j, rules[0].pattern[j]);
      }
    }
    forall w | RedactWord(rules, w)
      ensures RedactWord(rules[1..], w) || (rules[0].action.Redact? && w in rules[0].pattern)
    {
      var k, j :| RedactWordAt(rules, k, j, w);
      if k > 0 { assert RedactWordAt(rules[1..], k - 1, j, w); }
    }
  }

  /** Every placeholder-free word found after redaction was there before it. */
  lemma {:induction false} RedactAddsNothing(rules: seq<GuardrailRule>, t: string, w: Word)
    requires !Touches(w, REDACTION)
    requires Occurs(w, RedactText(rules, t))
    ensures Occurs(w, t)
    decreases rules
  {
    if rules != [] {
      var p := rules[0].pattern;
      var u := if rules[0].action.Redact? then ReplaceAll(p, t, REDACTION) else t;
      RedactAddsNothing(rules[1..], u, w);
      if rules[0].action.Redact? {
        var i :| 0 <= i <= |u| - |w| && OccursAt(w, u, i);
        NoNewOccurrence(p, t, REDACTION, w, i);
      }
    }
  }

  /** Whatever the order of the rules, no `Redact` word is left. */
  lemma {:induction false} RedactedTextIsClean(rules: seq<GuardrailRule>, t: string)
    requires Untouchable(rules)
    ensures NoRedactWordIn(rules, RedactText(rules, t))
    decreases rules
  {
    if rules != [] {
      var p := rules[0].pattern;
      var u := if rules[0].action.Redact? then ReplaceAll(p, t, REDACTION) else t;
      RedactWordTail(rules);
      RedactedTextIsClean(rules[1..], u);
      forall w | RedactWord(rules, w) ensures !Occurs(w, RedactText(rules, t)) {
        if !RedactWord(rules[1..], w) && Occurs(w, RedactText(rules[1..], u)) {
          RedactAddsNothing(rules[1..], u, w);
          var i :| 0 <= i <= |u| - |w| && OccursAt(w, u, i);
          NoNewOccurrence(p, t, REDACTION, w, i);
        }
      }
    }
  }

  /** The `changed` flag reports exactly whether some `Redact` word occurs. */
  lemma {:induction false} ChangedIffWordOccurs(rules: seq<GuardrailRule>, t: string)
    requires Untouchable(rules)
    ensures !RedactChanges(rules, t) <==> NoRedactWordIn(rules, t)
    ensures !RedactChanges(rules, t) ==> RedactText(rules, t) == t
    decreases rules
  {
    if rules == [] {
      forall w ensures !RedactWord(rules, w) {}
    } else {
      var p := rules[0].pattern;
      var u := if rules[0].action.Redact? then ReplaceAll(p, t, REDACTION) else t;
      RedactWordTail(rules);
      ChangedIffWordOccurs(rules[1..], u);
      if rules[0].action.Redact? {
        if IsMatch(p, t) {
          var j :| 0 <= j < |p| && Occurs(p[j], t);
          assert !Occurs(p[j], u) by {
            if Occurs(p[j], u) {
              var i :| 0 <= i <= |u| - |p[j]| && OccursAt(p[j], u, i);
              NoNewOccurrence(p, t, REDACTION, p[j], i);
            }
          }
        } else {
          NothingToReplace(p, t, REDACTION);
          forall w | w in p ensures !Occurs(w, t) {
            var j :| 0 <= j < |p| && p[j] == w;
          }
        }
      }
    }
  }

  lemma {:induction false} RedactIsIdempotent(rules: seq<GuardrailRule>, t: string)
    requires Untouchable(rules)
    ensures RedactText(rules, RedactText(rules, t)) == RedactText(rules, t)
  {
    RedactedTextIsClean(rules, t);
    ChangedIffWordOccurs(rules, RedactText(rules, t));
  }

  /** Words without a character of the placeholder cannot overlap it. */
  lemma {:induction false} DisjointCharactersSuffice(rules: seq<GuardrailRule>)
    requires forall w :: RedactWord(rules, w) ==> forall c :: c in w ==> c !in REDACTION
    ensures Untouchable(rules)
  {
    forall w | RedactWord(rules, w) ensures !Touches(w, REDACTION) {
      var k, j :| RedactWordAt(rules, k, j, w);
      NoSharedCharacter(w, REDACTION);
    }
  }

  // ------------------------------------------------- redaction delta by delta

  predicate StraddlesAt(w: string, a: string, b: string, i: int) {
    0 <= i < |a| < i + |w| && OccursAt(w, a + b, i)
  }

  /** `w` occurs across the boundary between `a` and `b`. */
  ghost predicate Straddles(w: string, a: string, b: string) {
    exists i :: StraddlesAt(w, a, b, i)
  }

  /** The leftmost scan of `a + b` picks a match that crosses the boundary. */
  predicate ScanCrosses(p: Pattern, a: string, b: string)
    decreases |a|
  {
    a != "" &&
    var n := MatchLength(p, a + b);
    (n > |a| || ScanCrosses(p, a[if n > 0 then n else 1..], b))
  }

  lemma {:induction false} MatchLengthOfPart(p: Pattern, a: string, b: string)
    requires MatchLength(p, a + b) <= |a|
    ensures MatchLength(p, a) == MatchLength(p, a + b)
  {
    if p != [] {
      if OccursAt(p[0], a + b, 0) {
        OccursAtLeft(p[0], a, b, 0);
      } else {
        if |p[0]| <= |a| {
          OccursAtLeft(p[0], a, b, 0);
        }
        MatchLengthOfPart(p[1..], a, b);
      }
    }
  }

  lemma {:induction false} DropFromLeft(a: string, b: string, n: nat)
    requires n <= |a|
    ensures (a + b)[n..] == a[n..] + b
  {
  }

  /** Both scans, of `a + b` and of `a`, begin alike unless the first crosses. */
  lemma {:induction false} SplitStep(p: Pattern, a: string, b: string, mark: string)
    requires a != "" && MatchLength(p, a + b) <= |a|
    ensures var n := if MatchLength(p, a + b) > 0 then MatchLength(p, a + b) else 1;
            var head := if MatchLength(p, a + b) > 0 then mark else [a[0]];
            && ReplaceAll(p, a, mark) == head + ReplaceAll(p, a[n..], mark)
            && ReplaceAll(p, a + b, mark) == head + ReplaceAll(p, a[n..] + b, mark)
  {
    MatchLengthOfPart(p, a, b);
    DropFromLeft(a, b, if MatchLength(p, a + b) > 0 then MatchLength(p, a + b) else 1);
  }

  lemma {:induction false} AppendLeft(head: string, x: string, y: string, z: string)
    ensures head + x == (head + y) + z <==> x == y + z
  {
    assert (head + y) + z == head + (y + z);
    if head + x == head + (y + z) {
      assert x == (head + x)[|head|..];
      assert y + z == (head + (y + z))[|head|..];
    }
  }

  lemma {:induction false} UncrossedScanSplits(p: Pattern, a: string, b: string, mark: string)
    requires !ScanCrosses(p, a, b)
    ensures ReplaceAll(p, a + b, mark) == ReplaceAll(p, a, mark) + ReplaceAll(p, b, mark)
    decreases |a|
  {
    if a == "" {
      assert a + b == b;
    } else {
      var matched := MatchLength(p, a + b);
      var n := if matched > 0 then matched else 1;
      SplitStep(p, a, b, mark);
      UncrossedScanSplits(p, a[n..], b, mark);
      AppendLeft(if matched > 0 then mark else [a[0]], ReplaceAll(p, a[n..] + b, mark),
                 ReplaceAll(p, a[n..], mark), ReplaceAll(p, b, mark));
    }
  }

  lemma {:induction false} NoStraddleNoCross(p: Pattern, a: string, b: string)
    requires forall k :: 0 <= k < |p| ==> !Straddles(p[k], a, b)
    ensures !ScanCrosses(p, a, b)
    decreases |a|
  {
    if a != "" {
      var matched := MatchLength(p, a + b);
      if matched > |a| {
        var k :| 0 <= k < |p| && |p[k]| == matched && OccursAt(p[k], a + b, 0);
        assert StraddlesAt(p[k], a, b, 0);
        assert false;
      } else {
        var n := if matched > 0 then matched else 1;
        forall k | 0 <= k < |p| ensures !Straddles(p[k], a[n..], b) {
          StraddleExtends(p[k], a[..n], a[n..], b);
          assert a[..n] + a[n..] == a;
        }
        NoStraddleNoCross(p, a[n..], b);
      }
    }
  }

  lemma {:induction false} StraddleExtends(w: string, before: string, a: string, b: string)
    ensures Straddles(w, a, b) ==> Straddles(w, before + a, b)
  {
    if Straddles(w, a, b) {
      var i :| StraddlesAt(w, a, b, i);
      OccursAtRight(w, before, a + b, i + |before|);
      assert before + (a + b) == (before + a) + b;
      assert StraddlesAt(w, before + a, b, i + |before|);
    }
  }

  /** Replacing on both sides of a boundary creates no straddling occurrence. */
  lemma {:induction false} StraddleSurvives(p: Pattern, a: string, b: string, mark: string, w: Word)
    requires mark != "" && !Touches(w, mark)
    requires Straddles(w, ReplaceAll(p, a, mark), ReplaceAll(p, b, mark))
    ensures Straddles(w, a, b)
  {
    var x, y := ReplaceAll(p, a, mark), ReplaceAll(p, b, mark);
    var i :| StraddlesAt(w, x, y, i);
    var m := |x| - i;
    SplitOccurrence(w, x, y, i);
    SuffixSurvives(p, a, mark, w, i);
    PrefixSurvives(p, b, mark, w, m);
    assert a[|a| - m..] == w[..m];
    JoinOccurrence(w, a, b, m);
    assert StraddlesAt(w, a, b, |a| - m);
  }

  lemma {:induction false} SplitOccurrence(w: string, x: string, y: string, i: int)
    requires StraddlesAt(w, x, y, i)
    ensures x[i..] == w[..|x| - i] && x[i..] <= w && w[|x| - i..] <= y
  {
    assert (x + y)[i..i + |w|] == x[i..] + y[..i + |w| - |x|];
  }

  lemma {:induction false} JoinOccurrence(w: string, a: string, b: string, m: nat)
    requires m <= |w| && m <= |a| && a[|a| - m..] == w[..m] && w[m..] <= b
    ensures OccursAt(w, a + b, |a| - m)
  {
    assert (a + b)[|a| - m..|a| - m + |w|] == a[|a| - m..] + b[..|w| - m];
    assert w == w[..m] + w[m..];
  }

  ghost predicate NoRedactWordStraddles(rules: seq<GuardrailRule>, a: string, b: string) {
    forall w :: RedactWord(rules, w) ==> !Straddles(w, a, b)
  }

  lemma {:induction false} RedactSplits(rules: seq<GuardrailRule>, a: string, b: string)
    requires Untouchable(rules)
    requires NoRedactWordStraddles(rules, a, b)
    ensures RedactText(rules, a + b) == RedactText(rules, a) + RedactText(rules, b)
    decreases rules
  {
    if rules != [] {
      RedactWordTail(rules);
      if rules[0].action.Redact? {
        var p := rules[0].pattern;
        NoStraddleNoCross(p, a, b);
        UncrossedScanSplits(p, a, b, REDACTION);
        var x, y := ReplaceAll(p, a, REDACTION), ReplaceAll(p, b, REDACTION);
        forall w | RedactWord(rules[1..], w) ensures !Straddles(w, x, y) {
          if Straddles(w, x, y) {
            var k, j :| RedactWordAt(rules[1..], k, j, w);
            StraddleSurvives(p, a, b, REDACTION, w);
          }
        }
        RedactSplits(rules[1..], x, y);
      } else {
        RedactSplits(rules[1..], a, b);
      }
    }
  }

  function RedactEach(rules: seq<GuardrailRule>, deltas: seq<string>): seq<string> {
    seq(|deltas|, i requires 0 <= i < |deltas| => RedactText(rules, deltas[i]))
  }

  /** No `Redact` word occurs across any boundary between deltas. */
  ghost predicate BoundariesClear(rules: seq<GuardrailRule>, deltas: seq<string>) {
    forall k :: 0 <= k <= |deltas| ==> NoRedactWordStraddles(rules, Concat(deltas[..k]), Concat(deltas[k..]))
  }

  lemma {:induction false} BoundariesClearTail(rules: seq<GuardrailRule>, deltas: seq<string>)
    requires deltas != [] && BoundariesClear(rules, deltas)
    ensures NoRedactWordStraddles(rules, deltas[0], Concat(deltas[1..]))
    ensures BoundariesClear(rules, deltas[1..])
  {
    var d, rest := deltas[0], deltas[1..];
    ConcatTake(deltas, 0);
    assert Concat(deltas[..1]) == d by {
      assert deltas[..0] == [];
    }
    assert NoRedactWordStraddles(rules, Concat(deltas[..1]), Concat(deltas[1..]));
    forall k | 0 <= k <= |rest| ensures NoRedactWordStraddles(rules, Concat(rest[..k]), Concat(rest[k..])) {
      assert NoRedactWordStraddles(rules, Concat(deltas[..k + 1]), Concat(deltas[k + 1..]));
      assert deltas[..k + 1][1..] == rest[..k] && deltas[k + 1..] == rest[k..];
      forall w | RedactWord(rules, w) ensures !Straddles(w, Concat(rest[..k]), Concat(rest[k..])) {
        StraddleExtends(w, d, Concat(rest[..k]), Concat(rest[k..]));
      }
    }
  }

  /** Redacting the deltas one by one is redacting the whole text, for any number
      of rules and deltas, as long as no word straddles a boundary. */
  lemma {:induction false} RedactEachIsRedactWhole(rules: seq<GuardrailRule>, deltas: seq<string>)
    requires Untouchable(rules)
    requires BoundariesClear(rules, deltas)
    ensures Concat(RedactEach(rules, deltas)) == RedactText(rules, Concat(deltas))
    decreases deltas
  {
    if deltas == [] {
      RedactEmpty(rules);
    } else {
      BoundariesClearTail(rules, deltas);
      RedactSplits(rules, deltas[0], Concat(deltas[1..]));
      RedactEachIsRedactWhole(rules, deltas[1..]);
      assert RedactEach(rules, deltas)[1..] == RedactEach(rules, deltas[1..]);
    }
  }

  lemma {:induction false} RedactEmpty(rules: seq<GuardrailRule>)
    ensures RedactText(rules, "") == ""
    decreases rules
  {
    if rules != [] {
      RedactEmpty(rules[1..]);
    }
  }

  /** The text a run lets through. */
  function EmittedText(out: seq<WindowResult>): string {
    if out == [] then ""
    else (if out[0].Emit? then out[0].text else "") + EmittedText(out[1..])
  }

  lemma {:induction false} BlockedFirst(rules: seq<GuardrailRule>, carry: string, deltas: seq<string>)
    requires deltas != [] && Verdict(rules, carry, deltas[0]).Blocked?
    ensures EndsBlocked(Run(rules, carry, deltas))
  {
    assert Run(rules, carry, deltas)[0].Blocked?;
  }

  lemma {:induction false} EmittedIsRedactEach(rules: seq<GuardrailRule>, carry: string, deltas: seq<string>)
    requires !EndsBlocked(Run(rules, carry, deltas))
    ensures EmittedText(Run(rules, carry, deltas)) == Concat(RedactEach(rules, deltas))
    decreases deltas
  {
    if deltas != [] {
      var v := Verdict(rules, carry, deltas[0]);
      if v.Blocked? {
        BlockedFirst(rules, carry, deltas);
        assert false;
      }
      var next := LastChars(carry + deltas[0], CARRY_CHARS);
      EndsBlockedCons(v, Run(rules, next, deltas[1..]));
      EmittedIsRedactEach(rules, next, deltas[1..]);
      assert RedactEach(rules, deltas)[1..] == RedactEach(rules, deltas[1..]);
      assert Run(rules, carry, deltas)[1..] == Run(rules, next, deltas[1..]);
    }
  }

  /** What a stream that is not blocked emits is the redaction of its whole text. */
  lemma {:induction false} StreamEmitsRedactedText(rules: seq<GuardrailRule>, deltas: seq<string>)
    requires Untouchable(rules)
    requires BoundariesClear(rules, deltas)
    requires !StreamBlocks(rules, deltas)
    ensures EmittedText(Run(rules, "", deltas)) == RedactText(rules, Concat(deltas))
    ensures NoRedactWordIn(rules, EmittedText(Run(rules, "", deltas)))
  {
    EmittedIsRedactEach(rules, "", deltas);
    RedactEachIsRedactWhole(rules, deltas);
    RedactedTextIsClean(rules, Concat(deltas));
  }

  // ---------------------------------------- the exact condition for one word

  lemma {:induction false} MatchShowsMark(p: Pattern, t: string, mark: string)
    requires mark != "" && t != "" && MatchLength(p, t) > 0
    ensures ReplaceAll(p, t, mark) != "" && ReplaceAll(p, t, mark)[0] == mark[0]
  {
    assert ReplaceAll(p, t, mark) == mark + ReplaceAll(p, t[MatchLength(p, t)..], mark);
  }

  /** As long as the output does not show the mark's first character, it is a copy. */
  lemma {:induction false} CopiedWhilePlain(p: Pattern, t: string, mark: string, n: nat)
    requires mark != ""
    requires n <= |ReplaceAll(p, t, mark)|
    requires forall i :: 0 <= i < n ==> ReplaceAll(p, t, mark)[i] != mark[0]
    ensures n <= |t| && forall i :: 0 <= i < n ==> ReplaceAll(p, t, mark)[i] == t[i]
    decreases |t|
  {
    if n > 0 {
      var out := ReplaceAll(p, t, mark);
      if MatchLength(p, t) > 0 {
        MatchShowsMark(p, t, mark);
        assert false;
      } else {
        var rest := ReplaceAll(p, t[1..], mark);
        assert forall i :: 0 <= i < |rest| ==> rest[i] == out[i + 1];
        CopiedWhilePlain(p, t[1..], mark, n - 1);
        forall i | 0 <= i < n ensures out[i] == t[i] {
          if i > 0 { assert rest[i - 1] == t[1..][i - 1]; }
        }
      }
    }
  }

  /** A mark whose first character appears nowhere else in it, like `[REDACTED]`. */
  predicate DistinctFirst(mark: string) {
    mark != "" && forall j :: 0 < j < |mark| ==> mark[j] != mark[0]
  }

  /** As long as `out` does not show `c`, it is a copy of `t`. */
  ghost predicate CopiesPlainly(out: string, t: string, c: char) {
    && (forall n: nat :: n <= |out| && PlainUpTo(out, c, n) ==> n <= |t| && out[..n] == t[..n])
    && (PlainUpTo(out, c, |out|) ==> out == t)
  }

  predicate PlainUpTo(out: string, c: char, n: nat)
    requires n <= |out|
  {
    forall i :: 0 <= i < n ==> out[i] != c
  }

  lemma {:induction false} UnmarkedIsCopy(p: Pattern, t: string, mark: string)
    requires mark != "" && PlainUpTo(ReplaceAll(p, t, mark), mark[0], |ReplaceAll(p, t, mark)|)
    ensures ReplaceAll(p, t, mark) == t
    decreases |t|
  {
    if t != "" {
      var out := ReplaceAll(p, t, mark);
      if MatchLength(p, t) > 0 {
        MatchShowsMark(p, t, mark);
        assert false;
      } else {
        var rest := ReplaceAll(p, t[1..], mark);
        assert forall i :: 0 <= i < |rest| ==> rest[i] == out[i + 1];
        UnmarkedIsCopy(p, t[1..], mark);
        HeadAndTail(t);
      }
    }
  }

  lemma {:induction false} ReplacedCopies(p: Pattern, t: string, mark: string)
    requires mark != ""
    ensures CopiesPlainly(ReplaceAll(p, t, mark), t, mark[0])
  {
    var out := ReplaceAll(p, t, mark);
    forall n: nat | n <= |out| && PlainUpTo(out, mark[0], n) ensures n <= |t| && out[..n] == t[..n] {
      CopiedWhilePlain(p, t, mark, n);
    }
    if PlainUpTo(out, mark[0], |out|) {
      UnmarkedIsCopy(p, t, mark);
    }
  }

  lemma {:induction false} CopiesAppend(x: string, s: string, y: string, t: string, c: char)
    requires CopiesPlainly(x, s, c) && CopiesPlainly(y, t, c)
    ensures CopiesPlainly(x + y, s + t, c)
  {
    var out := x + y;
    forall n: nat | n <= |out| && PlainUpTo(out, c, n) ensures n <= |s + t| && out[..n] == (s + t)[..n] {
      CopiesAppendUpTo(x, s, y, t, c, n);
    }
    if PlainUpTo(out, c, |out|) {
      assert PlainUpTo(x, c, |x|) by {
        assert forall i :: 0 <= i < |x| ==> x[i] == out[i];
      }
      assert PlainUpTo(y, c, |y|) by {
        assert forall i :: 0 <= i < |y| ==> y[i] == out[|x| + i];
      }
    }
  }

  lemma {:induction false} CopiesAppendUpTo(x: string, s: string, y: string, t: string, c: char, n: nat)
    requires CopiesPlainly(x, s, c) && CopiesPlainly(y, t, c)
    requires n <= |x + y| && PlainUpTo(x + y, c, n)
    ensures n <= |s + t| && (x + y)[..n] == (s + t)[..n]
  {
    var out := x + y;
    if n <= |x| {
      assert PlainUpTo(x, c, n) by {
        assert forall i :: 0 <= i < n ==> x[i] == out[i];
      }
      assert out[..n] == x[..n] == s[..n] == (s + t)[..n];
    } else {
      assert PlainUpTo(x, c, |x|) by {
        assert forall i :: 0 <= i < |x| ==> x[i] == out[i];
      }
      assert PlainUpTo(y, c, n - |x|) by {
        assert forall i :: 0 <= i < n - |x| ==> y[i] == out[|x| + i];
      }
      assert x == s;
      assert out[..n] == x + y[..n - |x|] == s + t[..n - |x|] == (s + t)[..n];
    }
  }

  /** A word cut by the boundary is seen by the scan of the whole, not by the parts,
      however the part behind the boundary is replaced. */
  lemma {:induction false} CutWordDiffers(w: Word, a: string, b: string, right: string, mark: string)
    requires DistinctFirst(mark) && !Touches(w, mark)
    requires a != "" && |a| < |w| && OccursAt(w, a + b, 0)
    requires CopiesPlainly(right, b, mark[0])
    ensures ReplaceAll([w], a + b, mark) != a + right
  {
    var whole := ReplaceAll([w], a + b, mark);
    assert OccursAt([w][0], a + b, 0);
    var more := ReplaceAll([w], (a + b)[|w|..], mark);
    assert whole == mark + more;
    if whole == a + right {
      var n := if |w| < |mark| then |w| else |mark|;
      forall j | 0 <= j < n ensures w[j] == mark[j] {
        assert w[j] == (a + b)[0..|w|][j] == (a + b)[j];
        assert mark[j] == whole[j] == (a + right)[j];
        if j >= |a| {
          forall i | 0 <= i <= j - |a| ensures right[i] != mark[0] {
            assert right[i] == (a + right)[i + |a|] == whole[i + |a|] == mark[i + |a|];
          }
          assert PlainUpTo(right, mark[0], j - |a| + 1);
          assert right[..j - |a| + 1][j - |a|] == b[..j - |a| + 1][j - |a|];
        }
      }
      assert AlignsAt(w, mark, 0);
      assert false;
    }
  }

  lemma {:induction false} CrossedDiffers(w: Word, a: string, b: string, right: string, mark: string)
    requires DistinctFirst(mark) && !Touches(w, mark)
    requires ScanCrosses([w], a, b) && CopiesPlainly(right, b, mark[0])
    ensures ReplaceAll([w], a + b, mark) != ReplaceAll([w], a, mark) + right
    decreases |a|
  {
    var p: Pattern := [w];
    var matched := MatchLength(p, a + b);
    if matched > |a| {
      assert OccursAt(p[0], a + b, 0);
      NothingToReplace(p, a, mark);
      CutWordDiffers(w, a, b, right, mark);
    } else {
      var n := if matched > 0 then matched else 1;
      SplitStep(p, a, b, mark);
      CrossedDiffers(w, a[n..], b, right, mark);
      AppendLeft(if matched > 0 then mark else [a[0]], ReplaceAll(p, a[n..] + b, mark),
                 ReplaceAll(p, a[n..], mark), right);
    }
  }

  /** With a one-word rule, redacting two parts equals redacting the whole exactly
      when the scan of the whole picks no match across the boundary. */
  lemma {:induction false} OneWordSplitsIff(w: Word, a: string, b: string, mark: string)
    requires DistinctFirst(mark) && !Touches(w, mark)
    ensures ReplaceAll([w], a + b, mark) == ReplaceAll([w], a, mark) + ReplaceAll([w], b, mark)
       <==> !ScanCrosses([w], a, b)
  {
    if ScanCrosses([w], a, b) {
      ReplacedCopies([w], b, mark);
      CrossedDiffers(w, a, b, ReplaceAll([w], b, mark), mark);
    } else {
      UncrossedScanSplits([w], a, b, mark);
    }
  }

  function ReplaceEach(p: Pattern, deltas: seq<string>, mark: string): seq<string> {
    seq(|deltas|, i requires 0 <= i < |deltas| => ReplaceAll(p, deltas[i], mark))
  }

  /** The scan of the joined deltas picks no match across any of their boundaries. */
  ghost predicate CrossesNone(p: Pattern, deltas: seq<string>) {
    forall k :: 0 <= k <= |deltas| ==> !ScanCrosses(p, Concat(deltas[..k]), Concat(deltas[k..]))
  }

  /** From a boundary it does not cross, the scan goes on as from the start. */
  lemma {:induction false} ScanRestarts(p: Pattern, d: string, x: string, y: string)
    requires !ScanCrosses(p, d, x + y)
    ensures ScanCrosses(p, d + x, y) <==> ScanCrosses(p, x, y)
    decreases |d|
  {
    if d == "" {
      EmptyFirst(x);
    } else {
      Assoc(d, x, y);
      var matched := MatchLength(p, d + x + y);
      var n := if matched > 0 then matched else 1;
      ScanRestarts(p, d[n..], x, y);
      DropFromLeft(d, x, n);
    }
  }

  lemma {:induction false} FirstBoundary(deltas: seq<string>, k: nat)
    requires deltas != [] && k < |deltas|
    ensures deltas[..k + 1] == [deltas[0]] + deltas[1..][..k] && deltas[k + 1..] == deltas[1..][k..]
    ensures Concat(deltas[..k + 1]) == deltas[0] + Concat(deltas[1..][..k])
    ensures Concat(deltas[1..]) == Concat(deltas[1..][..k]) + Concat(deltas[1..][k..])
  {
    var rest := deltas[1..];
    ConcatCons(deltas[0], rest[..k]);
    TakeDrop(rest, k);
    ConcatAppend(rest[..k], rest[k..]);
  }

  lemma {:induction false} CrossesNoneCons(p: Pattern, deltas: seq<string>)
    requires deltas != []
    ensures CrossesNone(p, deltas) <==> !ScanCrosses(p, deltas[0], Concat(deltas[1..])) && CrossesNone(p, deltas[1..])
  {
    var d, rest := deltas[0], deltas[1..];
    FirstBoundary(deltas, 0);
    AppendNothing(d);
    assert rest[..0] == [];
    if !ScanCrosses(p, d, Concat(rest)) {
      forall k: nat | k <= |rest|
        ensures ScanCrosses(p, Concat(deltas[..k + 1]), Concat(deltas[k + 1..])) <==>
                ScanCrosses(p, Concat(rest[..k]), Concat(rest[k..]))
      {
        FirstBoundary(deltas, k);
        ScanRestarts(p, d, Concat(rest[..k]), Concat(rest[k..]));
      }
      if CrossesNone(p, rest) {
        forall k | 0 <= k <= |deltas| ensures !ScanCrosses(p, Concat(deltas[..k]), Concat(deltas[k..])) {
          if k > 0 {
            assert !ScanCrosses(p, Concat(rest[..k - 1]), Concat(rest[k - 1..]));
          }
        }
      }
      if CrossesNone(p, deltas) {
        forall k | 0 <= k <= |rest| ensures !ScanCrosses(p, Concat(rest[..k]), Concat(rest[k..])) {
          assert !ScanCrosses(p, Concat(deltas[..k + 1]), Concat(deltas[k + 1..]));
        }
      }
    } else {
      assert ScanCrosses(p, Concat(deltas[..1]), Concat(deltas[1..]));
    }
  }

  lemma {:induction false} EachCopies(p: Pattern, deltas: seq<string>, mark: string)
    requires mark != ""
    ensures CopiesPlainly(Concat(ReplaceEach(p, deltas, mark)), Concat(deltas), mark[0])
    decreases deltas
  {
    if deltas != [] {
      ReplaceEachCons(p, deltas, mark);
      ReplacedCopies(p, deltas[0], mark);
      EachCopies(p, deltas[1..], mark);
      CopiesAppend(ReplaceAll(p, deltas[0], mark), deltas[0],
                   Concat(ReplaceEach(p, deltas[1..], mark)), Concat(deltas[1..]), mark[0]);
    }
  }

  lemma {:induction false} ReplaceEachCons(p: Pattern, deltas: seq<string>, mark: string)
    requires deltas != []
    ensures Concat(ReplaceEach(p, deltas, mark)) ==
            ReplaceAll(p, deltas[0], mark) + Concat(ReplaceEach(p, deltas[1..], mark))
  {
    assert ReplaceEach(p, deltas, mark)[1..] == ReplaceEach(p, deltas[1..], mark);
  }

  /** For any number of deltas: with a one-word rule, redacting them one by one equals
      redacting the whole exactly when the scan of the whole crosses no boundary. */
  lemma {:induction false} OneWordSplitsEachIff(w: Word, deltas: seq<string>, mark: string)
    requires DistinctFirst(mark) && !Touches(w, mark)
    ensures Concat(ReplaceEach([w], deltas, mark)) == ReplaceAll([w], Concat(deltas), mark) <==>
            CrossesNone([w], deltas)
    decreases deltas
  {
    if deltas != [] {
      var d, rest := deltas[0], deltas[1..];
      var right := Concat(ReplaceEach([w], rest, mark));
      ReplaceEachCons([w], deltas, mark);
      CrossesNoneCons([w], deltas);
      if ScanCrosses([w], d, Concat(rest)) {
        EachCopies([w], rest, mark);
        CrossedDiffers(w, d, Concat(rest), right, mark);
      } else {
        UncrossedScanSplits([w], d, Concat(rest), mark);
        OneWordSplitsEachIff(w, rest, mark);
        SameTail(ReplaceAll([w], d, mark), right, ReplaceAll([w], Concat(rest), mark));
      }
    }
  }

  lemma {:induction false} SameTail(head: string, x: string, y: string)
    ensures head + x == head + y <==> x == y
  {
    assert (head + x)[|head|..] == x && (head + y)[|head|..] == y;
  }

  /** The same of a rule set that redacts one word. */
  lemma {:induction false} OneWordStreamSplitsIff(rules: seq<GuardrailRule>, w: Word, deltas: seq<string>)
    requires |rules| == 1 && rules[0].action.Redact? && rules[0].pattern == [w] && !Touches(w, REDACTION)
    ensures Concat(RedactEach(rules, deltas)) == RedactText(rules, Concat(deltas)) <==> CrossesNone([w], deltas)
  {
    forall t ensures RedactText(rules, t) == ReplaceAll([w], t, REDACTION) {
      assert rules[1..] == [];
    }
    assert RedactEach(rules, deltas) == ReplaceEach([w], deltas, REDACTION);
    assert DistinctFirst(REDACTION);
    OneWordSplitsEachIff(w, deltas, REDACTION);
  }

  lemma {:induction false} RedactsOneWord(rules: seq<GuardrailRule>, w: Word)
    requires |rules| == 1 && rules[0].action.Redact? && rules[0].pattern == [w]
    ensures forall u :: RedactWord(rules, u) <==> u == w
  {
    assert RedactWordAt(rules, 0, 0, w);
    forall u | RedactWord(rules, u) ensures u == w {
      var k, j :| RedactWordAt(rules, k, j, u);
    }
  }

  lemma {:induction false} NeverBlocks(rules: seq<GuardrailRule>, carry: string, deltas: seq<string>)
    requires forall t :: FirstBlock(rules, t).None?
    ensures !EndsBlocked(Run(rules, carry, deltas))
    decreases deltas
  {
    if deltas != [] {
      var next := LastChars(carry + deltas[0], CARRY_CHARS);
      NeverBlocks(rules, next, deltas[1..]);
      EndsBlockedCons(Verdict(rules, carry, deltas[0]), Run(rules, next, deltas[1..]));
    }
  }

  lemma {:induction false} ShortTextUnchanged(rules: seq<GuardrailRule>, w: Word, t: string)
    requires |rules| == 1 && rules[0].action.Redact? && rules[0].pattern == [w]
    requires |t| < |w|
    ensures RedactText(rules, t) == t
  {
    NothingToReplace([w], t, REDACTION);
    assert rules[1..] == [];
  }

  lemma {:induction false} PartsPass(rules: seq<GuardrailRule>, w: Word, x: string, y: string)
    requires |rules| == 1 && rules[0].action.Redact? && rules[0].pattern == [w]
    requires |x| < |w| && |y| < |w|
    ensures EmittedText(Run(rules, "", [x, y])) == x + y
  {
    forall t ensures FirstBlock(rules, t).None? {}
    NeverBlocks(rules, "", [x, y]);
    EmittedIsRedactEach(rules, "", [x, y]);
    ShortTextUnchanged(rules, w, x);
    ShortTextUnchanged(rules, w, y);
    assert RedactEach(rules, [x, y]) == [x, y];
    ConcatPair(x, y);
  }

  /** The documented gap: a word split by a delta boundary is emitted untouched. */
  lemma {:induction false} SplitWordEscapes(rules: seq<GuardrailRule>, w: Word, cut: nat)
    requires |rules| == 1 && rules[0].action.Redact? && rules[0].pattern == [w]
    requires 0 < cut < |w| && !Touches(w, REDACTION)
    ensures EmittedText(Run(rules, "", [w[..cut], w[cut..]])) == w
    ensures Occurs(w, w) && !Occurs(w, RedactText(rules, w))
  {
    RedactsOneWord(rules, w);
    RedactedTextIsClean(rules, w);
    PartsPass(rules, w, w[..cut], w[cut..]);
    TakeDrop(w, cut);
    OccursFirst(w, w);
  }
}
