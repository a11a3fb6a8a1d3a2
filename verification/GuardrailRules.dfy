/** Guardrail rules, redaction, and the sliding-window matcher that runs a rule
    set over a streamed response (plugins/bitrouter-guardrails/src/rules.rs).

    A compiled regex is modelled by the finite list of non-empty words it
    accepts, in order of preference: `is_match` asks whether some word occurs,
    and `replace_all` scans from the left, taking at each position the first
    listed word that fits. */
module GuardrailRules {
  import opened Wrappers
  import opened Strings

  type Word = w: string | w != "" witness "x"
  type Pattern = seq<Word>

  datatype Action = Block | Redact

  datatype GuardrailRule = GuardrailRule(name: string, pattern: Pattern, action: Action)

  /** The placeholder substituted for redacted spans. */
  const REDACTION: string := "[REDACTED]"

  /** How much already-emitted text is kept to detect a straddling match. */
  const CARRY_CHARS: nat := 128

  // ---------------------------------------------------------------- matching

  predicate IsMatch(p: Pattern, t: string) {
    exists k :: 0 <= k < |p| && Occurs(p[k], t)
  }

  /** The name of the first `Block` rule that matches `t`, if any. */
  function FirstBlock(rules: seq<GuardrailRule>, t: string): Option<string> {
    if rules == [] then None
    else if rules[0].action.Block? && IsMatch(rules[0].pattern, t) then Some(rules[0].name)
    else FirstBlock(rules[1..], t)
  }

  predicate BlocksAt(rules: seq<GuardrailRule>, k: nat, t: string)
    requires k < |rules|
  {
    rules[k].action.Block? && IsMatch(rules[k].pattern, t)
  }

  /** `FirstBlock` names the earliest matching `Block` rule, and is `None`
      exactly when there is none. */
  lemma {:induction false} FirstBlockIsEarliest(rules: seq<GuardrailRule>, t: string)
    ensures FirstBlock(rules, t).None? <==> forall k :: 0 <= k < |rules| ==> !BlocksAt(rules, k, t)
    ensures FirstBlock(rules, t).Some? ==>
              exists k :: 0 <= k < |rules| && BlocksAt(rules, k, t)
                          && FirstBlock(rules, t).value == rules[k].name
                          && forall j :: 0 <= j < k ==> !BlocksAt(rules, j, t)
  {
    if rules != [] {
      var rest := rules[1..];
      FirstBlockIsEarliest(rest, t);
      assert forall k :: 0 <= k < |rest| ==> BlocksAt(rest, k, t) == BlocksAt(rules, k + 1, t);
      if BlocksAt(rules, 0, t) {
      } else if FirstBlock(rest, t).Some? {
        var k :| 0 <= k < |rest| && BlocksAt(rest, k, t)
                 && FirstBlock(rest, t).value == rest[k].name
                 && forall j :: 0 <= j < k ==> !BlocksAt(rest, j, t);
        assert BlocksAt(rules, k + 1, t);
        forall j | 0 <= j < k + 1 ensures !BlocksAt(rules, j, t) {
          if 0 < j { assert !BlocksAt(rest, j - 1, t); }
        }
      } else {
        forall k | 0 <= k < |rules| ensures !BlocksAt(rules, k, t) {
          if 0 < k { assert !BlocksAt(rest, k - 1, t); }
        }
      }
    }
  }

  /** `w` is one of the words of a `Block` rule. */
  ghost predicate BlockWord(rules: seq<GuardrailRule>, w: string) {
    exists k, j :: BlockWordAt(rules, k, j, w)
  }

  ghost predicate BlockWordAt(rules: seq<GuardrailRule>, k: int, j: int, w: string) {
    0 <= k < |rules| && rules[k].action.Block? && 0 <= j < |rules[k].pattern| && rules[k].pattern[j] == w
  }

  lemma {:induction false} FirstBlockSome(rules: seq<GuardrailRule>, t: string)
    ensures FirstBlock(rules, t).Some? <==> exists w :: BlockWord(rules, w) && Occurs(w, t)
  {
    FirstBlockIsEarliest(rules, t);
    if FirstBlock(rules, t).Some? {
      var k :| 0 <= k < |rules| && BlocksAt(rules, k, t);
      var j :| 0 <= j < |rules[k].pattern| && Occurs(rules[k].pattern[j], t);
      assert BlockWordAt(rules, k, j, rules[k].pattern[j]);
      assert BlockWord(rules, rules[k].pattern[j]);
    }
    if w :| BlockWord(rules, w) && Occurs(w, t) {
      var k, j :| BlockWordAt(rules, k, j, w);
      assert BlocksAt(rules, k, t);
    }
  }

  /** Texts in which the same `Block` words occur give the same verdict. */
  lemma {:induction false} FirstBlockDependsOnWords(rules: seq<GuardrailRule>, t: string, u: string)
    requires forall w :: BlockWord(rules, w) ==> (Occurs(w, t) <==> Occurs(w, u))
    ensures FirstBlock(rules, t) == FirstBlock(rules, u)
  {
    if rules != [] {
      if rules[0].action.Block? {
        forall j | 0 <= j < |rules[0].pattern|
          ensures Occurs(rules[0].pattern[j], t) <==> Occurs(rules[0].pattern[j], u)
        {
          assert BlockWordAt(rules, 0, j, rules[0].pattern[j]);
        }
      }
      forall w | BlockWord(rules[1..], w) ensures Occurs(w, t) <==> Occurs(w, u) {
        var k, j :| BlockWordAt(rules[1..], k, j, w);
        assert BlockWordAt(rules, k + 1, j, w);
      }
      FirstBlockDependsOnWords(rules[1..], t, u);
    }
  }

  // --------------------------------------------------------------- redaction

  /** The length of the preferred word of `p` starting at the head of `t`, or 0. */
  function MatchLength(p: Pattern, t: string): (n: nat)
    ensures n <= |t|
    ensures n == 0 <==> forall k :: 0 <= k < |p| ==> !OccursAt(p[k], t, 0)
    ensures n > 0 ==> exists k :: 0 <= k < |p| && |p[k]| == n && OccursAt(p[k], t, 0)
  {
    if p == [] then 0
    else if OccursAt(p[0], t, 0) then |p[0]|
    else
      var n := MatchLength(p[1..], t);
      assert forall k :: 0 <= k < |p[1..]| ==> p[1..][k] == p[k + 1];
      n
  }

  /** The leftmost, non-overlapping replacement of every match by `mark`. */
  function ReplaceAll(p: Pattern, t: string, mark: string): string
    decreases |t|
  {
    if t == "" then ""
    else
      var n := MatchLength(p, t);
      if n > 0 then mark + ReplaceAll(p, t[n..], mark)
      else [t[0]] + ReplaceAll(p, t[1..], mark)
  }

  /** Every `Redact` rule applied in order. */
  function RedactText(rules: seq<GuardrailRule>, t: string): string {
    if rules == [] then t
    else RedactText(rules[1..], if rules[0].action.Redact? then ReplaceAll(rules[0].pattern, t, REDACTION) else t)
  }

  /** Whether some `Redact` rule changed the text it was given. */
  predicate RedactChanges(rules: seq<GuardrailRule>, t: string) {
    rules != [] &&
    var u := if rules[0].action.Redact? then ReplaceAll(rules[0].pattern, t, REDACTION) else t;
    (u != t || RedactChanges(rules[1..], u))
  }

  /** A growable rule set, as built before it is shared with the hooks. */
  class RuleSet {
    var rules: seq<GuardrailRule>

    constructor ()
      ensures rules == []
    {
      rules := [];
    }

    constructor FromRules(rules: seq<GuardrailRule>)
      ensures this.rules == rules
    {
      this.rules := rules;
    }

    method Push(rule: GuardrailRule)
      modifies this
      ensures rules == old(rules) + [rule]
    {
      rules := rules + [rule];
    }

    /** The redacted text and whether anything was redacted. */
    method Redact(text: string) returns (out: string, changed: bool)
      ensures out == RedactText(rules, text)
      ensures changed == RedactChanges(rules, text)
    {
      out, changed := text, false;
      for i := 0 to |rules|
        invariant RedactText(rules, text) == RedactText(rules[i..], out)
        invariant RedactChanges(rules, text) == (changed || RedactChanges(rules[i..], out))
      {
        assert rules[i..][1..] == rules[i + 1..];
        if rules[i].action.Redact? {
          var replaced := ReplaceAll(rules[i].pattern, out, REDACTION);
          if replaced != out {
            changed := true;
            out := replaced;
          }
        }
      }
    }
  }

  // --------------------------------------------------------- streamed matching

  datatype WindowResult = Emit(text: string) | Blocked(rule: string)

  function Verdict(rules: seq<GuardrailRule>, context: string, delta: string): WindowResult {
    match FirstBlock(rules, context + delta)
    case Some(name) => Blocked(name)
    case None => Emit(RedactText(rules, delta))
  }

  /** `carry` is a suffix of `seen`, shorter than the window only when it is all of it. */
  ghost predicate IsWindow(seen: string, carry: string) {
    && |carry| <= |seen|
    && seen[|seen| - |carry|..] == carry
    && (|carry| >= CARRY_CHARS || carry == seen)
  }

  ghost predicate BlockWordsWithin(rules: seq<GuardrailRule>, n: nat) {
    forall w :: BlockWord(rules, w) ==> |w| <= n
  }

  /** The window `carry` stands in for the text `seen`: with every `Block` word
      short enough, nothing that left the window can matter any more. */
  ghost predicate Faithful(rules: seq<GuardrailRule>, seen: string, carry: string) {
    && IsWindow(seen, carry)
    && (BlockWordsWithin(rules, CARRY_CHARS + 1) ==> carry == seen || FirstBlock(rules, seen).None?)
  }

  /** Runs a rule set over a streamed response, keeping a short window of the
      text already let through. `accepted` is all of that text. */
  class SlidingWindowMatcher {
    const rules: seq<GuardrailRule>
    var carry: string
    ghost var accepted: string

    ghost predicate Valid()
      reads this
    {
      Faithful(rules, accepted, carry)
    }

    constructor (rules: seq<GuardrailRule>)
      ensures Valid() && this.rules == rules && carry == "" && accepted == ""
    {
      this.rules := rules;
      carry, accepted := "", "";
    }

    /** Restore a matcher from a persisted window. */
    constructor WithCarry(rules: seq<GuardrailRule>, carry: string)
      ensures Valid() && this.rules == rules && this.carry == carry && accepted == carry
    {
      this.rules := rules;
      this.carry, accepted := carry, carry;
    }

    /** Feed one delta. A delta that is blocked leaves the window alone. */
    method Feed(delta: string) returns (verdict: WindowResult)
      requires Valid()
      modifies this
      ensures Valid()
      ensures verdict == Verdict(rules, old(carry), delta)
      ensures BlockWordsWithin(rules, CARRY_CHARS + 1) ==> verdict == Verdict(rules, old(accepted), delta)
      ensures verdict.Blocked? ==> carry == old(carry) && accepted == old(accepted)
      ensures verdict.Emit? ==> accepted == old(accepted) + delta && carry == LastChars(accepted, CARRY_CHARS)
    {
      var combined := carry + delta;
      FeedStep(rules, accepted, carry, delta);
      var hit := FirstBlock(rules, combined);
      if hit.Some? {
        return Blocked(hit.value);
      }
      var redacter := new RuleSet.FromRules(rules);
      var redacted, _ := redacter.Redact(delta);
      carry := LastChars(combined, CARRY_CHARS);
      accepted := accepted + delta;
      return Emit(redacted);
    }
  }

  /** Sliding the window over `carry + delta` keeps the end of the whole text. */
  lemma {:induction false} WindowEnd(seen: string, carry: string, delta: string)
    requires IsWindow(seen, carry)
    ensures LastChars(carry + delta, CARRY_CHARS) == LastChars(seen + delta, CARRY_CHARS)
  {
    assert seen + delta == seen[..|seen| - |carry|] + (carry + delta);
  }

  lemma {:induction false} WindowStep(seen: string, carry: string, delta: string)
    requires IsWindow(seen, carry)
    ensures IsWindow(seen + delta, LastChars(carry + delta, CARRY_CHARS))
  {
    WindowEnd(seen, carry, delta);
  }

  /** A word that fits in the window plus one character, and was not complete
      before the delta, is found in the window. */
  lemma {:induction false} ShortWordInWindow(w: string, seen: string, carry: string, delta: string)
    requires w != "" && |w| <= CARRY_CHARS + 1
    requires IsWindow(seen, carry)
    requires carry == seen || !Occurs(w, seen)
    ensures Occurs(w, seen + delta) <==> Occurs(w, carry + delta)
  {
    var gone := seen[..|seen| - |carry|];
    assert seen + delta == gone + (carry + delta);
    if Occurs(w, carry + delta) {
      OccursInside(w, gone, carry + delta, "");
      assert gone + (carry + delta) + "" == seen + delta;
    }
    if Occurs(w, seen + delta) && carry != seen {
      var i :| 0 <= i <= |seen + delta| - |w| && OccursAt(w, seen + delta, i);
      if i + |w| <= |seen| {
        OccursAtLeft(w, seen, delta, i);
        assert false;
      }
      OccursAtRight(w, gone, carry + delta, i);
      assert OccursAt(w, carry + delta, i - |gone|);
    }
  }

  /** With every `Block` word short enough, scanning the window gives the same
      verdict as scanning everything seen so far. */
  lemma {:induction false} WindowSeesEnough(rules: seq<GuardrailRule>, seen: string, carry: string, delta: string)
    requires BlockWordsWithin(rules, CARRY_CHARS + 1)
    requires IsWindow(seen, carry)
    requires carry == seen || FirstBlock(rules, seen).None?
    ensures FirstBlock(rules, carry + delta) == FirstBlock(rules, seen + delta)
  {
    FirstBlockSome(rules, seen);
    forall w | BlockWord(rules, w) ensures Occurs(w, carry + delta) <==> Occurs(w, seen + delta) {
      var k, j :| BlockWordAt(rules, k, j, w);
      ShortWordInWindow(w, seen, carry, delta);
    }
    FirstBlockDependsOnWords(rules, carry + delta, seen + delta);
  }

  lemma {:induction false} FeedStep(rules: seq<GuardrailRule>, seen: string, carry: string, delta: string)
    requires Faithful(rules, seen, carry)
    ensures BlockWordsWithin(rules, CARRY_CHARS + 1) ==> Verdict(rules, carry, delta) == Verdict(rules, seen, delta)
    ensures LastChars(carry + delta, CARRY_CHARS) == LastChars(seen + delta, CARRY_CHARS)
    ensures FirstBlock(rules, carry + delta).None? ==>
              Faithful(rules, seen + delta, LastChars(carry + delta, CARRY_CHARS))
  {
    WindowStep(seen, carry, delta);
    WindowEnd(seen, carry, delta);
    if BlockWordsWithin(rules, CARRY_CHARS + 1) {
      WindowSeesEnough(rules, seen, carry, delta);
    }
  }

  /** The last 128 characters of a text without a match stand in for all of it. */
  lemma {:induction false} LastCharsSuffice(rules: seq<GuardrailRule>, seen: string, delta: string)
    requires BlockWordsWithin(rules, CARRY_CHARS + 1) && FirstBlock(rules, seen).None?
    ensures Verdict(rules, LastChars(seen, CARRY_CHARS), delta) == Verdict(rules, seen, delta)
    ensures LastChars(LastChars(seen, CARRY_CHARS) + delta, CARRY_CHARS) == LastChars(seen + delta, CARRY_CHARS)
  {
    WindowSeesEnough(rules, seen, LastChars(seen, CARRY_CHARS), delta);
    WindowEnd(seen, LastChars(seen, CARRY_CHARS), delta);
  }
}
