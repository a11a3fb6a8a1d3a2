/** Block detection over whole runs of a stream: a run of deltas through the
    sliding window compared with scanning the text received so far. */
module GuardrailStreaming {
  import opened Wrappers
  import opened Strings
  import opened GuardrailRules

  /** The verdicts of a matcher fed `deltas` in turn; a block ends the run. */
  function Run(rules: seq<GuardrailRule>, carry: string, deltas: seq<string>): seq<WindowResult>
    decreases deltas
  {
    if deltas == [] then []
    else
      var v := Verdict(rules, carry, deltas[0]);
      if v.Blocked? then [v]
      else [v] + Run(rules, LastChars(carry + deltas[0], CARRY_CHARS), deltas[1..])
  }

  lemma {:induction false} RunStep(rules: seq<GuardrailRule>, carry: string, d: string, rest: seq<string>)
    ensures var v := Verdict(rules, carry, d);
            Run(rules, carry, [d] + rest) ==
            if v.Blocked? then [v] else [v] + Run(rules, LastChars(carry + d, CARRY_CHARS), rest)
  {
    assert ([d] + rest)[1..] == rest;
  }

  /** One long-lived matcher fed delta after delta, up to a block. */
  method FeedAll(matcher: SlidingWindowMatcher, deltas: seq<string>) returns (out: seq<WindowResult>)
    requires matcher.Valid()
    modifies matcher
    ensures matcher.Valid()
    ensures out == Run(matcher.rules, old(matcher.carry), deltas)
  {
    out := [];
    DropNone(deltas);
    EmptyFirst(Run(matcher.rules, matcher.carry, deltas));
    for i := 0 to |deltas|
      invariant matcher.Valid()
      invariant Run(matcher.rules, old(matcher.carry), deltas) == out + Run(matcher.rules, matcher.carry, deltas[i..])
    {
      ghost var carry := matcher.carry;
      WindowEnd(matcher.accepted, carry, deltas[i]);
      HeadAndTail(deltas[i..]);
      RunStep(matcher.rules, carry, deltas[i], deltas[i..][1..]);
      var v := matcher.Feed(deltas[i]);
      if v.Blocked? {
        return out + [v];
      }
      assert deltas[i..][1..] == deltas[i + 1..];
      Assoc(out, [v], Run(matcher.rules, matcher.carry, deltas[i + 1..]));
      out := out + [v];
    }
    AppendNothing(out);
  }

  /** `out` is what scanning the accumulated text would give: one verdict per
      delta, each about the whole text up to and including that delta, ending
      early only with a block. */
  ghost predicate WholeTextRun(rules: seq<GuardrailRule>, seen: string, deltas: seq<string>, out: seq<WindowResult>) {
    && |out| <= |deltas|
    && (forall k :: 0 <= k < |out| ==> out[k] == Verdict(rules, seen + Concat(deltas[..k]), deltas[k]))
    && (forall k :: 0 <= k < |out| - 1 ==> out[k].Emit?)
    && (|out| < |deltas| ==> out != [] && out[|out| - 1].Blocked?)
  }

  lemma {:induction false} WholeTextCons(rules: seq<GuardrailRule>, seen: string, d: string, rest: seq<string>,
                                         tail: seq<WindowResult>)
    requires WholeTextRun(rules, seen + d, rest, tail)
    requires Verdict(rules, seen, d).Emit?
    ensures WholeTextRun(rules, seen, [d] + rest, [Verdict(rules, seen, d)] + tail)
  {
    var deltas, v := [d] + rest, Verdict(rules, seen, d);
    var out := [v] + tail;
    forall k | 0 <= k < |out| ensures out[k] == Verdict(rules, seen + Concat(deltas[..k]), deltas[k]) {
      if k == 0 {
        assert seen + Concat(deltas[..0]) == seen;
      } else {
        assert deltas[..k][1..] == rest[..k - 1];
        assert seen + Concat(deltas[..k]) == (seen + d) + Concat(rest[..k - 1]);
        assert out[k] == tail[k - 1];
      }
    }
  }

  lemma {:induction false} WholeTextBlocked(rules: seq<GuardrailRule>, seen: string, deltas: seq<string>)
    requires deltas != [] && Verdict(rules, seen, deltas[0]).Blocked?
    ensures WholeTextRun(rules, seen, deltas, [Verdict(rules, seen, deltas[0])])
  {
    assert seen + Concat(deltas[..0]) == seen;
  }

  lemma {:induction false} RunFrom(rules: seq<GuardrailRule>, seen: string, carry: string, deltas: seq<string>)
    requires BlockWordsWithin(rules, CARRY_CHARS + 1)
    requires IsWindow(seen, carry)
    requires carry == seen || FirstBlock(rules, seen).None?
    ensures WholeTextRun(rules, seen, deltas, Run(rules, carry, deltas))
    decreases deltas
  {
    if deltas != [] {
      var d, rest := deltas[0], deltas[1..];
      assert deltas == [d] + rest;
      WindowSeesEnough(rules, seen, carry, d);
      var v := Verdict(rules, carry, d);
      assert v == Verdict(rules, seen, d);
      if v.Blocked? {
        assert Run(rules, carry, deltas) == [v];
        WholeTextBlocked(rules, seen, deltas);
      } else {
        var next := LastChars(carry + d, CARRY_CHARS);
        WindowStep(seen, carry, d);
        var tail := Run(rules, next, rest);
        assert Run(rules, carry, deltas) == [v] + tail;
        assert WholeTextRun(rules, seen + d, rest, tail) by {
          RunFrom(rules, seen + d, next, rest);
        }
        WholeTextCons(rules, seen, d, rest, tail);
      }
    }
  }

  /** With no `Block` word over 129 characters, a run over any chunking blocks at
      exactly the first delta that completes a match in the accumulated text, and
      names the rule that scanning the accumulated text names. */
  lemma {:induction false} StreamBlocksAtFirstMatchingPrefix(rules: seq<GuardrailRule>, deltas: seq<string>)
    requires BlockWordsWithin(rules, CARRY_CHARS + 1)
    ensures WholeTextRun(rules, "", deltas, Run(rules, "", deltas))
  {
    RunFrom(rules, "", "", deltas);
  }

  ghost predicate EndsBlocked(out: seq<WindowResult>) {
    exists k :: 0 <= k < |out| && out[k].Blocked?
  }

  lemma {:induction false} EndsBlockedCons(v: WindowResult, tail: seq<WindowResult>)
    ensures EndsBlocked([v] + tail) <==> v.Blocked? || EndsBlocked(tail)
  {
    var out := [v] + tail;
    if v.Blocked? {
      assert out[0].Blocked?;
    }
    if k :| 0 <= k < |tail| && tail[k].Blocked? {
      assert out[k + 1].Blocked?;
    }
    if k :| 0 <= k < |out| && out[k].Blocked? {
      assert k == 0 || tail[k - 1].Blocked?;
    }
  }

  ghost predicate StreamBlocks(rules: seq<GuardrailRule>, deltas: seq<string>) {
    EndsBlocked(Run(rules, "", deltas))
  }

  // --------------------------------------------- the exact limit of detection

  /** Every `Block` word too long for the window contains one that fits. */
  ghost predicate LongWordsCovered(rules: seq<GuardrailRule>) {
    forall w :: BlockWord(rules, w) && |w| > CARRY_CHARS + 1 ==> HasShortBlockWord(rules, w)
  }

  ghost predicate HasShortBlockWord(rules: seq<GuardrailRule>, t: string) {
    exists u :: BlockWord(rules, u) && |u| <= CARRY_CHARS + 1 && Occurs(u, t)
  }

  lemma {:induction false} CoveredText(rules: seq<GuardrailRule>, t: string)
    requires LongWordsCovered(rules)
    ensures FirstBlock(rules, t).Some? <==> HasShortBlockWord(rules, t)
  {
    FirstBlockSome(rules, t);
    if FirstBlock(rules, t).Some? {
      var w :| BlockWord(rules, w) && Occurs(w, t);
      if |w| > CARRY_CHARS + 1 {
        var u :| BlockWord(rules, u) && |u| <= CARRY_CHARS + 1 && Occurs(u, w);
        OccursTransitive(u, w, t);
      }
    }
  }

  lemma {:induction false} CoveredRun(rules: seq<GuardrailRule>, seen: string, carry: string, deltas: seq<string>)
    requires LongWordsCovered(rules)
    requires IsWindow(seen, carry) && FirstBlock(rules, seen).None?
    ensures EndsBlocked(Run(rules, carry, deltas)) <==> FirstBlock(rules, seen + Concat(deltas)).Some?
    decreases deltas
  {
    if deltas == [] {
      assert seen + Concat(deltas) == seen;
    } else {
      var d, rest := deltas[0], deltas[1..];
      var v, next := Verdict(rules, carry, d), LastChars(carry + d, CARRY_CHARS);
      CoveredStep(rules, seen, carry, d);
      ConcatHead(seen, deltas);
      if v.Blocked? {
        BlockPersists(rules, seen + d, Concat(rest));
        EndsBlockedCons(v, []);
        assert Run(rules, carry, deltas) == [v] + [];
      } else {
        WindowStep(seen, carry, d);
        CoveredRun(rules, seen + d, next, rest);
        EndsBlockedCons(v, Run(rules, next, rest));
      }
    }
  }

  lemma {:induction false} CoveredStep(rules: seq<GuardrailRule>, seen: string, carry: string, d: string)
    requires LongWordsCovered(rules)
    requires IsWindow(seen, carry) && FirstBlock(rules, seen).None?
    ensures FirstBlock(rules, carry + d).Some? <==> FirstBlock(rules, seen + d).Some?
  {
    CoveredText(rules, seen);
    CoveredText(rules, carry + d);
    CoveredText(rules, seen + d);
    forall u | BlockWord(rules, u) && |u| <= CARRY_CHARS + 1
      ensures Occurs(u, carry + d) <==> Occurs(u, seen + d)
    {
      var k, j :| BlockWordAt(rules, k, j, u);
      ShortWordInWindow(u, seen, carry, d);
    }
  }

  lemma {:induction false} BlockPersists(rules: seq<GuardrailRule>, t: string, more: string)
    requires FirstBlock(rules, t).Some?
    ensures FirstBlock(rules, t + more).Some?
  {
    FirstBlockSome(rules, t);
    FirstBlockSome(rules, t + more);
    var w :| BlockWord(rules, w) && Occurs(w, t);
    OccursInside(w, "", t, more);
    assert "" + t + more == t + more;
  }

  function Singles(t: string): seq<string> {
    if t == "" then [] else [[t[0]]] + Singles(t[1..])
  }

  lemma {:induction false} ConcatSingles(t: string)
    ensures Concat(Singles(t)) == t
  {
    if t != "" {
      var rest := t[1..];
      ConcatSingles(rest);
      assert Singles(t)[0] == [t[0]] && Singles(t)[1..] == Singles(rest);
    }
  }

  /** One character at a time, the window never shows more than 129 characters,
      so a text without a short `Block` word goes through. */
  lemma {:induction false} SinglesPass(rules: seq<GuardrailRule>, before: string, after: string)
    requires !HasShortBlockWord(rules, before + after)
    ensures !EndsBlocked(Run(rules, LastChars(before, CARRY_CHARS), Singles(after)))
    decreases after
  {
    if after != "" {
      var carry, d, rest := LastChars(before, CARRY_CHARS), [after[0]], after[1..];
      assert before + after == (before + d) + rest;
      SingleStepPasses(rules, before, d, rest);
      WindowEnd(before, carry, d);
      SinglesPass(rules, before + d, rest);
      assert Singles(after)[0] == d && Singles(after)[1..] == Singles(rest);
      EndsBlockedCons(Verdict(rules, carry, d), Run(rules, LastChars(carry + d, CARRY_CHARS), Singles(rest)));
    }
  }

  lemma {:induction false} SingleStepPasses(rules: seq<GuardrailRule>, before: string, d: string, rest: string)
    requires |d| == 1
    requires !HasShortBlockWord(rules, before + d + rest)
    ensures FirstBlock(rules, LastChars(before, CARRY_CHARS) + d).None?
  {
    var window := LastChars(before, CARRY_CHARS) + d;
    var gone := before[..|before| + 1 - |window|];
    assert before + d + rest == gone + window + rest;
    FirstBlockSome(rules, window);
    forall w | BlockWord(rules, w) ensures !Occurs(w, window) {
      if Occurs(w, window) {
        OccursInside(w, gone, window, rest);
      }
    }
  }

  /** A stream is blocked whenever its whole text matches, whatever the chunking,
      exactly when every `Block` word over 129 characters contains another
      `Block` word of at most 129. */
  lemma {:induction false} DetectionIsExact(rules: seq<GuardrailRule>)
    ensures (forall deltas :: StreamBlocks(rules, deltas) <==> FirstBlock(rules, Concat(deltas)).Some?)
       <==> LongWordsCovered(rules)
  {
    if LongWordsCovered(rules) {
      forall deltas ensures StreamBlocks(rules, deltas) <==> FirstBlock(rules, Concat(deltas)).Some? {
        EmptyTextPasses(rules);
        assert IsWindow("", "");
        CoveredRun(rules, "", "", deltas);
        assert "" + Concat(deltas) == Concat(deltas);
      }
    } else {
      var w :| BlockWord(rules, w) && |w| > CARRY_CHARS + 1 && !HasShortBlockWord(rules, w);
      assert "" + w == w;
      SinglesPass(rules, "", w);
      assert !StreamBlocks(rules, Singles(w));
      ConcatSingles(w);
      FirstBlockSome(rules, w);
      assert OccursAt(w, w, 0);
    }
  }

  lemma {:induction false} EmptyTextPasses(rules: seq<GuardrailRule>)
    ensures FirstBlock(rules, "").None?
  {
    FirstBlockSome(rules, "");
    forall w | BlockWord(rules, w) ensures !Occurs(w, "") {
      var k, j :| BlockWordAt(rules, k, j, w);
    }
  }

  /** Two chunkings of the same text are both blocked or both let through. */
  lemma {:induction false} VerdictIgnoresChunking(rules: seq<GuardrailRule>, one: seq<string>, other: seq<string>)
    requires BlockWordsWithin(rules, CARRY_CHARS + 1)
    requires Concat(one) == Concat(other)
    ensures StreamBlocks(rules, one) <==> StreamBlocks(rules, other)
    ensures StreamBlocks(rules, one) <==> FirstBlock(rules, Concat(one)).Some?
  {
    assert LongWordsCovered(rules);
    DetectionIsExact(rules);
  }

  /** The limit is sharp: any single `Block` word of 130 characters slips through
      when it is streamed one character at a time. */
  lemma {:induction false} LongWordMissed(name: string, w: Word)
    requires |w| == CARRY_CHARS + 2
    ensures var rules := [GuardrailRule(name, [w], Block)];
            && Concat(Singles(w)) == w
            && FirstBlock(rules, w) == Some(name)
            && !StreamBlocks(rules, Singles(w))
  {
    var rules := [GuardrailRule(name, [w], Block)];
    ConcatSingles(w);
    assert OccursAt(w, w, 0);
    assert IsMatch(rules[0].pattern, w) by { assert Occurs(rules[0].pattern[0], w); }
    assert "" + w == w;
    forall u | BlockWord(rules, u) ensures u == w {
      var k, j :| BlockWordAt(rules, k, j, u);
    }
    SinglesPass(rules, "", w);
  }
}
