/** When redaction leaves one of its own words behind: a check over finitely many
    texts for one rule, and over finitely many characters for any rule list. */
module RedactionLeaks {
  import opened Strings
  import opened GuardrailRules
  import opened ReplaceAllFacts
  import opened GuardrailRedaction

  // --------------------------------- when does a rule of several words stay clean?

  /** The length of the longest word, at least one. */
  function Longest(p: Pattern): (n: nat)
    ensures n > 0 && forall k :: 0 <= k < |p| ==> |p[k]| <= n
  {
    if p == [] then 1
    else
      var rest := Longest(p[1..]);
      assert forall k :: 0 < k < |p| ==> p[k] == p[1..][k - 1];
      if |p[0]| > rest then |p[0]| else rest
  }

  /** One more step of the scan in front of a part it does not cross. */
  lemma {:induction false} UncrossedGrows(p: Pattern, s: string, x: string, y: string, mark: string)
    requires s != "" && |s| == if MatchLength(p, s + x + y) > 0 then MatchLength(p, s + x + y) else 1
    requires !ScanCrosses(p, x, y)
    ensures !ScanCrosses(p, s + x, y)
    ensures ReplaceAll(p, s + x, mark) ==
            (if MatchLength(p, s + x + y) > 0 then mark else [s[0]]) + ReplaceAll(p, x, mark)
  {
    DropPast(s, x, |s|);
    DropNone(x);
    SplitStep(p, s + x, y, mark);
  }

  lemma {:induction false} OneMore(left: nat, n: nat, longest: nat)
    requires left < n
    ensures longest + left * longest <= n * longest
  {
    assert (left + 1) * longest <= n * longest;
  }

  lemma {:induction false} CutAgain(t: string, k: nat, x: string, y: string)
    requires k <= |t| && t[k..] == x + y
    ensures t[..k] + x + y == t && |t[..k] + x| == k + |x|
  {
    TakeDrop(t, k);
    Assoc(t[..k], x, y);
  }

  /** The part of the input that the first `n` characters of the output come from. */
  lemma {:induction false} Covered(p: Pattern, t: string, mark: string, n: nat) returns (a: string, b: string)
    requires mark != "" && n <= |ReplaceAll(p, t, mark)|
    ensures t == a + b && !ScanCrosses(p, a, b)
    ensures |a| <= n * Longest(p) && n <= |ReplaceAll(p, a, mark)|
    decreases |t|
  {
    if n == 0 {
      EmptyFirst(t);
      return "", t;
    }
    var (head, k) := Head(p, t, mark);
    var left := if n > |head| then n - |head| else 0;
    var x, y := Covered(p, t[k..], mark, left);
    CutAgain(t, k, x, y);
    UncrossedGrows(p, t[..k], x, y, mark);
    OneMore(left, n, Longest(p));
    a, b := t[..k] + x, y;
  }

  /** An occurrence in the output is there already for the part of the input it comes from. */
  lemma {:induction false} ShortWitness(p: Pattern, t: string, mark: string, w: Word, i: nat) returns (u: string)
    requires mark != "" && OccursAt(w, ReplaceAll(p, t, mark), i)
    ensures |u| <= |w| * Longest(p) && Occurs(w, ReplaceAll(p, u, mark))
    decreases |t|
  {
    var (head, k) := Head(p, t, mark);
    var rest := ReplaceAll(p, t[k..], mark);
    if i >= |head| {
      OccursAtRight(w, head, rest, i);
      u := ShortWitness(p, t[k..], mark, w, i - |head|);
    } else {
      var left := if i + |w| > |head| then i + |w| - |head| else 0;
      var x, y := Covered(p, t[k..], mark, left);
      CutAgain(t, k, x, y);
      UncrossedGrows(p, t[..k], x, y, mark);
      OneMore(left, |w|, Longest(p));
      u := t[..k] + x;
      UncrossedScanSplits(p, u, y, mark);
      OccursAtLeft(w, ReplaceAll(p, u, mark), ReplaceAll(p, y, mark), i);
    }
  }

  /** Some text still shows `w` after the pass of a rule. */
  ghost predicate LeaksFrom(p: Pattern, w: Word, mark: string) {
    exists t :: Occurs(w, ReplaceAll(p, t, mark))
  }

  // ------------------------------------------------- other characters are alike

  function Chars(w: string): set<char> {
    set c | c in w
  }

  /** The characters of a rule's words. */
  function Letters(p: Pattern): set<char> {
    if p == [] then {} else Chars(p[0]) + Letters(p[1..])
  }

  predicate Over(t: string, letters: set<char>) {
    forall i :: 0 <= i < |t| ==> t[i] in letters
  }

  /** `b` is `a` with some characters outside `letters` turned into `z`. */
  predicate Blurred(a: string, b: string, letters: set<char>, z: char) {
    |a| == |b| && forall i :: 0 <= i < |a| ==> b[i] == a[i] || (b[i] == z && a[i] !in letters)
  }

  function Blur(t: string, letters: set<char>, z: char): string {
    seq(|t|, i requires 0 <= i < |t| => if t[i] in letters then t[i] else z)
  }

  lemma {:induction false} OccursBlurred(w: string, a: string, b: string, letters: set<char>, z: char, i: int)
    requires Blurred(a, b, letters, z) && Over(w, letters) && z !in letters
    ensures OccursAt(w, a, i) <==> OccursAt(w, b, i)
  {
    if 0 <= i <= |a| - |w| {
      if OccursAt(w, a, i) {
        forall j | 0 <= j < |w| ensures b[i..i + |w|][j] == w[j] {
          assert a[i..i + |w|][j] == a[i + j];
        }
      }
      if OccursAt(w, b, i) {
        forall j | 0 <= j < |w| ensures a[i..i + |w|][j] == w[j] {
          assert b[i..i + |w|][j] == b[i + j];
        }
      }
    }
  }

  lemma {:induction false} MatchBlurred(p: Pattern, a: string, b: string, letters: set<char>, z: char)
    requires Blurred(a, b, letters, z) && Letters(p) <= letters && z !in letters
    ensures MatchLength(p, a) == MatchLength(p, b)
  {
    if p != [] {
      OccursBlurred(p[0], a, b, letters, z, 0);
      MatchBlurred(p[1..], a, b, letters, z);
    }
  }

  lemma {:induction false} BlurredTail(a: string, b: string, letters: set<char>, z: char, n: nat)
    requires Blurred(a, b, letters, z) && n <= |a|
    ensures Blurred(a[n..], b[n..], letters, z)
  {
  }

  lemma {:induction false} BlurredAppend(x: string, y: string, a: string, b: string, letters: set<char>, z: char)
    requires Blurred(x, y, letters, z) && Blurred(a, b, letters, z)
    ensures Blurred(x + a, y + b, letters, z)
  {
  }

  lemma {:induction false} ReplaceBlurred(p: Pattern, a: string, b: string, mark: string, letters: set<char>, z: char)
    requires Blurred(a, b, letters, z) && Letters(p) <= letters && z !in letters
    ensures Blurred(ReplaceAll(p, a, mark), ReplaceAll(p, b, mark), letters, z)
    decreases |a|
  {
    if a != "" {
      MatchBlurred(p, a, b, letters, z);
      var (x, n) := Head(p, a, mark);
      var (y, _) := Head(p, b, mark);
      BlurredTail(a, b, letters, z, n);
      ReplaceBlurred(p, a[n..], b[n..], mark, letters, z);
      BlurredAppend(x, y, ReplaceAll(p, a[n..], mark), ReplaceAll(p, b[n..], mark), letters, z);
    }
  }

  lemma {:induction false} OccursInBlurred(w: Word, a: string, b: string, letters: set<char>, z: char)
    requires Blurred(a, b, letters, z) && Over(w, letters) && z !in letters && Occurs(w, a)
    ensures Occurs(w, b)
  {
    var i :| 0 <= i <= |a| - |w| && OccursAt(w, a, i);
    OccursBlurred(w, a, b, letters, z, i);
  }

  // ------------------------------------------------------- the exact conditions

  /** Some text of at most `n` characters, all of them in `letters`, does. */
  ghost predicate LeaksWithin(p: Pattern, w: Word, mark: string, n: nat, letters: set<char>) {
    exists t :: |t| <= n && Over(t, letters) && Occurs(w, ReplaceAll(p, t, mark))
  }

  /** A rule leaves `w` in some output exactly when it does for one of finitely many
      texts: no longer than the length of `w` times that of the rule's longest word,
      and made of the characters of the words and one other, whichever that is. */
  lemma {:induction false} RuleLeaksIff(p: Pattern, w: Word, mark: string, z: char)
    requires mark != "" && z !in Chars(w) + Letters(p)
    ensures LeaksFrom(p, w, mark) <==> LeaksWithin(p, w, mark, |w| * Longest(p), Chars(w) + Letters(p) + {z})
  {
    if t :| Occurs(w, ReplaceAll(p, t, mark)) {
      var out := ReplaceAll(p, t, mark);
      var i :| 0 <= i <= |out| - |w| && OccursAt(w, out, i);
      var u := ShortWitness(p, t, mark, w, i);
      var letters := Chars(w) + Letters(p);
      ReplaceBlurred(p, u, Blur(u, letters, z), mark, letters, z);
      OccursInBlurred(w, ReplaceAll(p, u, mark), ReplaceAll(p, Blur(u, letters, z), mark), letters, z);
    }
  }

  /** The characters of the words of all `Redact` rules. */
  function RuleLetters(rules: seq<GuardrailRule>): set<char> {
    if rules == [] then {}
    else (if rules[0].action.Redact? then Letters(rules[0].pattern) else {}) + RuleLetters(rules[1..])
  }

  lemma {:induction false} RedactBlurred(rules: seq<GuardrailRule>, a: string, b: string, letters: set<char>, z: char)
    requires Blurred(a, b, letters, z) && RuleLetters(rules) <= letters && z !in letters
    ensures Blurred(RedactText(rules, a), RedactText(rules, b), letters, z)
    decreases rules
  {
    if rules != [] {
      if rules[0].action.Redact? {
        var p := rules[0].pattern;
        ReplaceBlurred(p, a, b, REDACTION, letters, z);
        RedactBlurred(rules[1..], ReplaceAll(p, a, REDACTION), ReplaceAll(p, b, REDACTION), letters, z);
      } else {
        RedactBlurred(rules[1..], a, b, letters, z);
      }
    }
  }

  /** Some text still shows `w` when every rule has been applied. */
  ghost predicate RulesLeak(rules: seq<GuardrailRule>, w: Word) {
    exists t :: Occurs(w, RedactText(rules, t))
  }

  ghost predicate RulesLeakOver(rules: seq<GuardrailRule>, w: Word, letters: set<char>) {
    exists t :: Over(t, letters) && Occurs(w, RedactText(rules, t))
  }

  /** A rule list leaves `w` in some output exactly when it does for a text made of
      the characters of the words and one other. */
  lemma {:induction false} RulesLeakIff(rules: seq<GuardrailRule>, w: Word, z: char)
    requires z !in Chars(w) + RuleLetters(rules)
    ensures RulesLeak(rules, w) <==> RulesLeakOver(rules, w, Chars(w) + RuleLetters(rules) + {z})
  {
    if t :| Occurs(w, RedactText(rules, t)) {
      var letters := Chars(w) + RuleLetters(rules);
      var u := Blur(t, letters, z);
      RedactBlurred(rules, t, u, letters, z);
      OccursInBlurred(w, RedactText(rules, t), RedactText(rules, u), letters, z);
    }
  }

  /** Touching the placeholder is not yet leaking: two opening brackets can overlap
      it, and no output of their rule holds them. */
  lemma {:induction false} BracketsTouchButDoNotLeak()
    ensures Touches("[[", REDACTION) && !Leaks("[[", REDACTION)
  {
    assert AlignsAt("[[", REDACTION, -1);
    if d :| RebuiltAt("[[", REDACTION, d) {
      NoRebuiltBrackets(d);
    }
    OneWordRuleLeaksIff("[[", REDACTION);
  }

  lemma {:induction false} NoRebuiltBrackets(d: int)
    ensures !RebuiltAt("[[", REDACTION, d)
  {
    var w := "[[";
    if 0 <= d < 10 {
      var j := if d == 0 then 1 else 0;
      assert w[j] != REDACTION[j + d];
    }
    if d == -1 {
      assert Lead(w, d) == "[" && Overhang(w, REDACTION, d) == "";
      assert ("[" + w + "")[0..2] == w;
      assert OccursAt(w, "[" + w + "", 0);
    }
  }
}
