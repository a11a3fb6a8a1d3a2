/** The attestation route hook: one verdict per confidential target of a
    fallback chain, recorded or enforced (plugins/bitrouter-attestation/src/hooks.rs). */
module Attestation {
  import opened Strings
  import opened Wrappers

  datatype Target = Target(provider: string, service: string, endpoint: string)

  datatype Verdict = Verdict(model: string, verified: bool, addresses: seq<string>, boundary: string,
                             nonce: string, checksPass: bool, verifiedAt: nat)

  datatype VerifyError = UnknownProvider | Withheld | Malformed

  datatype Policy = Record | Enforce

  /** The verdict a provider's verifier gives for a model at a time. */
  type Verifier = (string, nat) -> Result<Verdict, VerifyError>

  datatype Config = Config(policy: Policy, registry: map<string, Verifier>, confidentialProviders: seq<string>)

  predicate IsConfidential(config: Config, t: Target) {
    t.provider in config.confidentialProviders
  }

  /** The verdict with every check failed. */
  function Unverified(model: string, nonce: string, now: nat): Verdict {
    Verdict(model, false, [], "", nonce, false, now)
  }

  /** A target's own verdict: a registry miss or a verifier error is unverified. */
  function OwnVerdict(config: Config, now: nat, t: Target): Verdict {
    if t.provider !in config.registry then Unverified(t.service, "", now)
    else
      match config.registry[t.provider](t.service, now)
      case Ok(v) => v
      case Err(_) => Unverified(t.service, "", now)
  }

  function Key(t: Target): (string, string) {
    (t.provider, t.service)
  }

  /** None of the targets has the provider and the model of `t`. */
  predicate NewKey(targets: seq<Target>, t: Target) {
    forall k :: 0 <= k < |targets| ==> Key(targets[k]) != Key(t)
  }

  /** The confidential targets with a key not seen before, in chain order. */
  function Representatives(config: Config, chain: seq<Target>): seq<Target> {
    if chain == [] then []
    else
      var init, t := chain[..|chain| - 1], chain[|chain| - 1];
      var before := Representatives(config, init);
      if IsConfidential(config, t) && NewKey(before, t) then before + [t] else before
  }

  function Verdicts(config: Config, now: nat, targets: seq<Target>): seq<Verdict> {
    seq(|targets|, k requires 0 <= k < |targets| => OwnVerdict(config, now, targets[k]))
  }

  predicate AnyVerified(verdicts: seq<Verdict>, model: string) {
    exists k :: 0 <= k < |verdicts| && verdicts[k].model == model && verdicts[k].verified
  }

  predicate Keeps(config: Config, verdicts: seq<Verdict>, t: Target) {
    !IsConfidential(config, t) || AnyVerified(verdicts, t.service)
  }

  function Retained(config: Config, verdicts: seq<Verdict>, chain: seq<Target>): seq<Target> {
    if chain == [] then []
    else
      var init, t := chain[..|chain| - 1], chain[|chain| - 1];
      Retained(config, verdicts, init) + (if Keeps(config, verdicts, t) then [t] else [])
  }

  /** What enforcing leaves of a chain. */
  function Enforced(config: Config, now: nat, chain: seq<Target>): seq<Target> {
    Retained(config, Verdicts(config, now, Representatives(config, chain)), chain)
  }

  /** The verdicts kept for later stages, with the policy they were taken under. */
  datatype Outcome = Outcome(policy: Policy, verdicts: seq<Verdict>)

  /** The chain being resolved and what the request context carries of it. */
  class Route {
    var chain: seq<Target>
    var metadata: Option<Outcome>
    var extension: Option<seq<Verdict>>

    constructor (chain: seq<Target>, metadata: Option<Outcome>, extension: Option<seq<Verdict>>)
      ensures this.chain == chain && this.metadata == metadata && this.extension == extension
    {
      this.chain, this.metadata, this.extension := chain, metadata, extension;
    }

    method Gather(config: Config, now: nat) returns (verdicts: seq<Verdict>)
      ensures verdicts == Verdicts(config, now, Representatives(config, chain))
    {
      verdicts := [];
      var seen: set<(string, string)> := {};
      ghost var targets := [];
      for i := 0 to |chain|
        invariant targets == Representatives(config, chain[..i])
        invariant seen == (set t | t in targets :: Key(t))
        invariant verdicts == Verdicts(config, now, targets)
      {
        var t := chain[i];
        assert chain[..i + 1][..i] == chain[..i];
        SeenKeys(targets, seen, t);
        if IsConfidential(config, t) && Key(t) !in seen {
          SeenMore(targets, t);
          verdicts := verdicts + [OwnVerdict(config, now, t)];
          seen := seen + {Key(t)};
          targets := targets + [t];
        }
      }
      assert chain[..|chain|] == chain;
    }

    method Retain(config: Config, verdicts: seq<Verdict>)
      modifies this`chain
      ensures chain == Retained(config, verdicts, old(chain))
    {
      var kept := [];
      for i := 0 to |chain|
        invariant chain == old(chain)
        invariant kept == Retained(config, verdicts, chain[..i])
      {
        assert chain[..i + 1][..i] == chain[..i];
        if Keeps(config, verdicts, chain[i]) {
          kept := kept + [chain[i]];
        }
      }
      assert chain[..|chain|] == chain;
      chain := kept;
    }

    /** Without confidential targets nothing happens; otherwise the verdicts are
        recorded whatever the policy, and only enforcing touches the chain. */
    method Resolve(config: Config, now: nat)
      modifies this
      ensures var verdicts := Verdicts(config, now, Representatives(config, old(chain)));
              && (verdicts == [] ==> metadata == old(metadata) && extension == old(extension))
              && (verdicts != [] ==> metadata == Some(Outcome(config.policy, verdicts)) && extension == Some(verdicts))
      ensures config.policy.Record? ==> chain == old(chain)
      ensures config.policy.Enforce? ==> chain == Enforced(config, now, old(chain))
    {
      var verdicts := Gather(config, now);
      if verdicts == [] {
        NothingConfidential(config, now, chain);
        return;
      }
      metadata := Some(Outcome(config.policy, verdicts));
      extension := Some(verdicts);
      if config.policy.Enforce? {
        Retain(config, verdicts);
      }
    }
  }

  lemma {:induction false} SeenKeys(targets: seq<Target>, seen: set<(string, string)>, t: Target)
    requires seen == (set u | u in targets :: Key(u))
    ensures Key(t) !in seen <==> NewKey(targets, t)
  {
    if k :| 0 <= k < |targets| && Key(targets[k]) == Key(t) {
      assert targets[k] in targets;
    }
  }

  lemma {:induction false} SeenMore(targets: seq<Target>, t: Target)
    ensures (set u | u in targets + [t] :: Key(u)) == (set u | u in targets :: Key(u)) + {Key(t)}
  {
    assert forall u :: u in targets + [t] <==> u in targets || u == t;
  }

  // -------------------------------------------- one verdict per distinct key

  /** A confidential target such that no earlier one has its provider and model. */
  predicate FirstOfItsKey(config: Config, chain: seq<Target>, i: nat)
    requires i < |chain|
  {
    IsConfidential(config, chain[i]) && NewKey(chain[..i], chain[i])
  }

  /** `out` is the chain at the positions `at`, from left to right. */
  ghost predicate Picked(chain: seq<Target>, at: seq<nat>, out: seq<Target>) {
    && |out| == |at|
    && (forall k :: 0 <= k < |at| ==> at[k] < |chain| && out[k] == chain[at[k]])
    && (forall j, k :: 0 <= j < k < |at| ==> at[j] < at[k])
  }

  lemma {:induction false} PickedSnoc(chain: seq<Target>, at: seq<nat>, out: seq<Target>)
    requires chain != [] && Picked(chain[..|chain| - 1], at, out)
    ensures Picked(chain, at, out)
    ensures Picked(chain, at + [|chain| - 1], out + [chain[|chain| - 1]])
  {
    assert forall k :: 0 <= k < |at| ==> chain[..|chain| - 1][at[k]] == chain[at[k]];
  }

  lemma {:induction false} NewKeySnoc(targets: seq<Target>, u: Target, t: Target)
    ensures NewKey(targets + [u], t) <==> NewKey(targets, t) && Key(u) != Key(t)
  {
    var all := targets + [u];
    assert all[|targets|] == u;
    assert forall k :: 0 <= k < |targets| ==> all[k] == targets[k];
  }

  /** A key is among the representatives exactly when it is in the chain. */
  lemma {:induction false} NewToRepresentatives(config: Config, chain: seq<Target>, t: Target)
    requires IsConfidential(config, t)
    ensures NewKey(Representatives(config, chain), t) <==> NewKey(chain, t)
  {
    if chain != [] {
      var n := |chain| - 1;
      var before := Representatives(config, chain[..n]);
      NewToRepresentatives(config, chain[..n], t);
      InitAndLast(chain);
      NewKeySnoc(chain[..n], chain[n], t);
      NewKeySnoc(before, chain[n], t);
      if Key(chain[n]) == Key(t) {
        NewKeySame(before, chain[n], t);
      }
    }
  }

  lemma {:induction false} NewKeySame(targets: seq<Target>, u: Target, t: Target)
    requires Key(u) == Key(t)
    ensures NewKey(targets, u) <==> NewKey(targets, t)
  {
  }

  /** The positions where a confidential provider and model first occur. */
  ghost function FirstAt(config: Config, chain: seq<Target>): seq<nat> {
    if chain == [] then []
    else
      var n := |chain| - 1;
      FirstAt(config, chain[..n]) + (if FirstOfItsKey(config, chain, n) then [n] else [])
  }

  lemma {:induction false} FirstAtExactly(config: Config, chain: seq<Target>, i: nat)
    requires i < |chain|
    ensures i in FirstAt(config, chain) <==> FirstOfItsKey(config, chain, i)
  {
    var n := |chain| - 1;
    FirstAtBounded(config, chain[..n]);
    if i < n {
      assert chain[..n][i] == chain[i] && chain[..n][..i] == chain[..i];
      FirstAtExactly(config, chain[..n], i);
    }
  }

  lemma {:induction false} FirstAtBounded(config: Config, chain: seq<Target>)
    ensures forall i :: i in FirstAt(config, chain) ==> i < |chain|
  {
    if chain != [] {
      FirstAtBounded(config, chain[..|chain| - 1]);
    }
  }

  /** The verdicts are one for each distinct confidential provider and model, in
      the order these first occur in the chain. */
  lemma {:induction false} OneVerdictPerKey(config: Config, chain: seq<Target>)
    ensures Picked(chain, FirstAt(config, chain), Representatives(config, chain))
    ensures forall i :: 0 <= i < |chain| ==> (i in FirstAt(config, chain) <==> FirstOfItsKey(config, chain, i))
  {
    if chain != [] {
      var n := |chain| - 1;
      OneVerdictPerKey(config, chain[..n]);
      PickedSnoc(chain, FirstAt(config, chain[..n]), Representatives(config, chain[..n]));
      if IsConfidential(config, chain[n]) {
        NewToRepresentatives(config, chain[..n], chain[n]);
      }
      AppendNothing(FirstAt(config, chain[..n]));
    }
    forall i | 0 <= i < |chain| ensures i in FirstAt(config, chain) <==> FirstOfItsKey(config, chain, i) {
      FirstAtExactly(config, chain, i);
    }
  }

  lemma {:induction false} RepresentativesAreMembers(config: Config, chain: seq<Target>, t: Target)
    requires t in Representatives(config, chain)
    ensures IsConfidential(config, t) && t in chain
  {
    var n := |chain| - 1;
    if t in Representatives(config, chain[..n]) {
      RepresentativesAreMembers(config, chain[..n], t);
    }
  }

  // ------------------------------------------------------- what enforcing does

  lemma {:induction false} RepresentedTargets(config: Config, now: nat, chain: seq<Target>, v: Verdict)
    ensures v in Verdicts(config, now, Representatives(config, chain)) <==>
            exists i :: 0 <= i < |chain| && IsConfidential(config, chain[i]) && OwnVerdict(config, now, chain[i]) == v
  {
    var reps := Representatives(config, chain);
    if v in Verdicts(config, now, reps) {
      var k :| 0 <= k < |reps| && OwnVerdict(config, now, reps[k]) == v;
      RepresentativesAreMembers(config, chain, reps[k]);
    }
    if i :| 0 <= i < |chain| && IsConfidential(config, chain[i]) && OwnVerdict(config, now, chain[i]) == v {
      NewToRepresentatives(config, chain, chain[i]);
      assert !NewKey(chain, chain[i]);
      var k :| 0 <= k < |reps| && Key(reps[k]) == Key(chain[i]);
      assert Verdicts(config, now, reps)[k] == v;
    }
  }

  lemma {:induction false} NothingConfidential(config: Config, now: nat, chain: seq<Target>)
    requires Verdicts(config, now, Representatives(config, chain)) == []
    ensures forall i :: 0 <= i < |chain| ==> !IsConfidential(config, chain[i])
    ensures Enforced(config, now, chain) == chain
  {
    forall i | 0 <= i < |chain| ensures !IsConfidential(config, chain[i]) {
      RepresentedTargets(config, now, chain, OwnVerdict(config, now, chain[i]));
    }
    RetainedAll(config, [], chain);
  }

  /** A target is kept because of `u`. */
  predicate VouchedBy(config: Config, now: nat, u: Target, model: string) {
    IsConfidential(config, u) && OwnVerdict(config, now, u).verified && OwnVerdict(config, now, u).model == model
  }

  ghost predicate Vouched(config: Config, now: nat, chain: seq<Target>, model: string) {
    exists i :: 0 <= i < |chain| && VouchedBy(config, now, chain[i], model)
  }

  /** A confidential target is kept exactly when some confidential target of the
      chain, its own provider's or another's, has a verified verdict for its model. */
  lemma {:induction false} KeepsIff(config: Config, now: nat, chain: seq<Target>, t: Target)
    ensures Keeps(config, Verdicts(config, now, Representatives(config, chain)), t) <==>
            !IsConfidential(config, t) || Vouched(config, now, chain, t.service)
  {
    var verdicts := Verdicts(config, now, Representatives(config, chain));
    if k :| 0 <= k < |verdicts| && verdicts[k].model == t.service && verdicts[k].verified {
      RepresentedTargets(config, now, chain, verdicts[k]);
      var i :| 0 <= i < |chain| && IsConfidential(config, chain[i]) && OwnVerdict(config, now, chain[i]) == verdicts[k];
      assert VouchedBy(config, now, chain[i], t.service);
    }
    if i :| 0 <= i < |chain| && VouchedBy(config, now, chain[i], t.service) {
      var v := OwnVerdict(config, now, chain[i]);
      RepresentedTargets(config, now, chain, v);
      var k :| 0 <= k < |verdicts| && verdicts[k] == v;
    }
  }

  lemma {:induction false} RetainedMembers(config: Config, verdicts: seq<Verdict>, chain: seq<Target>, t: Target)
    ensures t in Retained(config, verdicts, chain) <==> t in chain && Keeps(config, verdicts, t)
  {
    if chain != [] {
      var n := |chain| - 1;
      RetainedMembers(config, verdicts, chain[..n], t);
      InitAndLast(chain);
    }
  }

  lemma {:induction false} RetainedWhole(config: Config, verdicts: seq<Verdict>, chain: seq<Target>)
    requires forall t :: t in chain ==> Keeps(config, verdicts, t)
    ensures Retained(config, verdicts, chain) == chain
  {
    if chain != [] {
      var n := |chain| - 1;
      assert chain[n] in chain && chain == chain[..n] + [chain[n]];
      RetainedWhole(config, verdicts, chain[..n]);
    }
  }

  lemma {:induction false} RetainedAll(config: Config, verdicts: seq<Verdict>, chain: seq<Target>)
    ensures Retained(config, verdicts, chain) == chain <==> forall t :: t in chain ==> Keeps(config, verdicts, t)
  {
    if Retained(config, verdicts, chain) == chain {
      forall t | t in chain ensures Keeps(config, verdicts, t) {
        RetainedMembers(config, verdicts, chain, t);
      }
    } else if forall t :: t in chain ==> Keeps(config, verdicts, t) {
      RetainedWhole(config, verdicts, chain);
    }
  }

  /** The positions of the targets that are kept. */
  ghost function KeptAt(config: Config, verdicts: seq<Verdict>, chain: seq<Target>): seq<nat> {
    if chain == [] then []
    else
      var n := |chain| - 1;
      KeptAt(config, verdicts, chain[..n]) + (if Keeps(config, verdicts, chain[n]) then [n] else [])
  }

  lemma {:induction false} KeptAtBounded(config: Config, verdicts: seq<Verdict>, chain: seq<Target>)
    ensures forall i :: i in KeptAt(config, verdicts, chain) ==> i < |chain|
  {
    if chain != [] {
      KeptAtBounded(config, verdicts, chain[..|chain| - 1]);
    }
  }

  lemma {:induction false} KeptAtExactly(config: Config, verdicts: seq<Verdict>, chain: seq<Target>, i: nat)
    requires i < |chain|
    ensures i in KeptAt(config, verdicts, chain) <==> Keeps(config, verdicts, chain[i])
  {
    var n := |chain| - 1;
    KeptAtBounded(config, verdicts, chain[..n]);
    if i < n {
      assert chain[..n][i] == chain[i];
      KeptAtExactly(config, verdicts, chain[..n], i);
    }
  }

  /** Enforcing keeps an ordered part of the chain: exactly the positions whose
      target is not confidential or has a verified verdict for its model. */
  lemma {:induction false} RetainedInOrder(config: Config, verdicts: seq<Verdict>, chain: seq<Target>)
    ensures Picked(chain, KeptAt(config, verdicts, chain), Retained(config, verdicts, chain))
    ensures forall i :: 0 <= i < |chain| ==>
            (i in KeptAt(config, verdicts, chain) <==> Keeps(config, verdicts, chain[i]))
  {
    if chain != [] {
      var n := |chain| - 1;
      var init := chain[..n];
      RetainedInOrder(config, verdicts, init);
      PickedSnoc(chain, KeptAt(config, verdicts, init), Retained(config, verdicts, init));
      AppendNothing(KeptAt(config, verdicts, init));
      AppendNothing(Retained(config, verdicts, init));
    }
    forall i | 0 <= i < |chain| ensures i in KeptAt(config, verdicts, chain) <==> Keeps(config, verdicts, chain[i]) {
      KeptAtExactly(config, verdicts, chain, i);
    }
  }

  // --------------------------------------- against each target's own verdict

  /** Every verdict is about the model that was asked for. */
  ghost predicate Echoing(config: Config, now: nat, chain: seq<Target>) {
    forall i :: 0 <= i < |chain| && IsConfidential(config, chain[i]) ==>
      OwnVerdict(config, now, chain[i]).model == chain[i].service
  }

  /** What enforcing each target's own verdict would leave. */
  function ByOwnVerdict(config: Config, now: nat, chain: seq<Target>): seq<Target> {
    if chain == [] then []
    else
      var init, t := chain[..|chain| - 1], chain[|chain| - 1];
      ByOwnVerdict(config, now, init)
      + (if !IsConfidential(config, t) || OwnVerdict(config, now, t).verified then [t] else [])
  }

  /** Confidential targets of one model agree on whether it is verified. */
  ghost predicate ModelsAgree(config: Config, now: nat, chain: seq<Target>) {
    forall i, j :: && 0 <= i < |chain| && 0 <= j < |chain|
                   && IsConfidential(config, chain[i]) && IsConfidential(config, chain[j])
                   && chain[i].service == chain[j].service
                   ==> OwnVerdict(config, now, chain[i]).verified == OwnVerdict(config, now, chain[j]).verified
  }

  lemma {:induction false} SameChoice(config: Config, now: nat, verdicts: seq<Verdict>, chain: seq<Target>)
    requires forall i :: 0 <= i < |chain| ==>
                           (Keeps(config, verdicts, chain[i]) <==>
                            !IsConfidential(config, chain[i]) || OwnVerdict(config, now, chain[i]).verified)
    ensures Retained(config, verdicts, chain) == ByOwnVerdict(config, now, chain)
  {
    if chain != [] {
      var n := |chain| - 1;
      assert forall i :: 0 <= i < n ==> chain[..n][i] == chain[i];
      SameChoice(config, now, verdicts, chain[..n]);
    }
  }

  lemma {:induction false} ByOwnVerdictMembers(config: Config, now: nat, chain: seq<Target>, t: Target)
    ensures t in ByOwnVerdict(config, now, chain) <==>
            t in chain && (!IsConfidential(config, t) || OwnVerdict(config, now, t).verified)
  {
    if chain != [] {
      var n := |chain| - 1;
      ByOwnVerdictMembers(config, now, chain[..n], t);
      InitAndLast(chain);
    }
  }

  /** A confidential target's own verdict says whether its model is vouched for. */
  ghost predicate OwnVerdictDecides(config: Config, now: nat, chain: seq<Target>) {
    forall i :: 0 <= i < |chain| && IsConfidential(config, chain[i]) ==>
                  (Vouched(config, now, chain, chain[i].service) <==> OwnVerdict(config, now, chain[i]).verified)
  }

  /** Enforcing keeps every confidential target on its own verdict exactly when
      that verdict is verified if and only if some verdict vouches for its model. */
  lemma {:induction false} EnforcedByOwnVerdictIff(config: Config, now: nat, chain: seq<Target>)
    ensures Enforced(config, now, chain) == ByOwnVerdict(config, now, chain) <==> OwnVerdictDecides(config, now, chain)
  {
    var verdicts := Verdicts(config, now, Representatives(config, chain));
    forall t ensures Keeps(config, verdicts, t) <==>
                     !IsConfidential(config, t) || Vouched(config, now, chain, t.service) {
      KeepsIff(config, now, chain, t);
    }
    if OwnVerdictDecides(config, now, chain) {
      SameChoice(config, now, verdicts, chain);
    } else {
      var i :| && 0 <= i < |chain| && IsConfidential(config, chain[i])
               && (Vouched(config, now, chain, chain[i].service) <==> !OwnVerdict(config, now, chain[i]).verified);
      RetainedMembers(config, verdicts, chain, chain[i]);
      ByOwnVerdictMembers(config, now, chain, chain[i]);
    }
  }

  /** With echoing verifiers, that is so exactly when no two confidential targets
      of the chain share a model and disagree about it. */
  lemma {:induction false} EchoingDecidesIff(config: Config, now: nat, chain: seq<Target>)
    requires Echoing(config, now, chain)
    ensures OwnVerdictDecides(config, now, chain) <==> ModelsAgree(config, now, chain)
  {
    forall i | 0 <= i < |chain| && IsConfidential(config, chain[i]) && OwnVerdict(config, now, chain[i]).verified
      ensures VouchedBy(config, now, chain[i], chain[i].service)
    {
    }
    if ModelsAgree(config, now, chain) {
      forall i | 0 <= i < |chain| && IsConfidential(config, chain[i]) && Vouched(config, now, chain, chain[i].service)
        ensures OwnVerdict(config, now, chain[i]).verified
      {
        var j :| 0 <= j < |chain| && VouchedBy(config, now, chain[j], chain[i].service);
      }
    } else {
      var i, j :| && 0 <= i < |chain| && 0 <= j < |chain|
                  && IsConfidential(config, chain[i]) && IsConfidential(config, chain[j])
                  && chain[i].service == chain[j].service
                  && OwnVerdict(config, now, chain[i]).verified && !OwnVerdict(config, now, chain[j]).verified;
      assert VouchedBy(config, now, chain[i], chain[j].service);
    }
  }

  /** Without it, agreement is not enough: a lone target that is verified under
      another model's name is dropped. */
  lemma {:induction false} MisnamedIsDropped(config: Config, now: nat, t: Target)
    requires IsConfidential(config, t)
    requires OwnVerdict(config, now, t).verified && OwnVerdict(config, now, t).model != t.service
    ensures ModelsAgree(config, now, [t]) && t in ByOwnVerdict(config, now, [t]) && t !in Enforced(config, now, [t])
  {
    KeepsIff(config, now, [t], t);
    RetainedMembers(config, Verdicts(config, now, Representatives(config, [t])), [t], t);
    ByOwnVerdictMembers(config, now, [t], t);
  }

  /** Two providers serving one model need not agree: a target whose provider has
      no verifier at all is kept beside a verified one. */
  lemma {:induction false} UnknownProviderKept(config: Config, now: nat, good: Target, bad: Target)
    requires IsConfidential(config, good) && IsConfidential(config, bad) && bad.provider !in config.registry
    requires good.service == bad.service
    requires OwnVerdict(config, now, good).verified && OwnVerdict(config, now, good).model == good.service
    ensures !OwnVerdict(config, now, bad).verified
    ensures bad in Enforced(config, now, [good, bad])
    ensures bad !in Enforced(config, now, [bad])
  {
    var chain := [good, bad];
    assert VouchedBy(config, now, chain[0], bad.service);
    KeepsIff(config, now, chain, bad);
    RetainedMembers(config, Verdicts(config, now, Representatives(config, chain)), chain, bad);
    KeepsIff(config, now, [bad], bad);
    RetainedMembers(config, Verdicts(config, now, Representatives(config, [bad])), [bad], bad);
  }

  // -------------------------------------------------------------- enforcing twice

  /** A second filter by the same verdicts finds nothing to drop. */
  lemma {:induction false} RetainedTwice(config: Config, verdicts: seq<Verdict>, chain: seq<Target>)
    ensures Retained(config, verdicts, Retained(config, verdicts, chain)) == Retained(config, verdicts, chain)
  {
    var once := Retained(config, verdicts, chain);
    forall t | t in once ensures Keeps(config, verdicts, t) {
      RetainedMembers(config, verdicts, chain, t);
    }
    RetainedAll(config, verdicts, once);
  }

  /** Some target vouches for the model and is vouched for itself. */
  ghost predicate LastingVoucher(config: Config, now: nat, chain: seq<Target>, model: string) {
    exists j :: && 0 <= j < |chain| && VouchedBy(config, now, chain[j], model)
                && Vouched(config, now, chain, chain[j].service)
  }

  /** Every confidential target of the chain that is vouched for has such a voucher. */
  ghost predicate VouchersLast(config: Config, now: nat, chain: seq<Target>) {
    forall i :: && 0 <= i < |chain| && IsConfidential(config, chain[i])
                && Vouched(config, now, chain, chain[i].service) ==>
                  LastingVoucher(config, now, chain, chain[i].service)
  }

  lemma {:induction false} EnforcedMembers(config: Config, now: nat, chain: seq<Target>, t: Target)
    ensures t in Enforced(config, now, chain) <==>
            t in chain && (!IsConfidential(config, t) || Vouched(config, now, chain, t.service))
  {
    RetainedMembers(config, Verdicts(config, now, Representatives(config, chain)), chain, t);
    KeepsIff(config, now, chain, t);
  }

  /** What the enforced chain vouches for. */
  lemma {:induction false} EnforcedVouches(config: Config, now: nat, chain: seq<Target>, model: string)
    ensures Vouched(config, now, Enforced(config, now, chain), model) <==> LastingVoucher(config, now, chain, model)
  {
    var once := Enforced(config, now, chain);
    if i :| 0 <= i < |once| && VouchedBy(config, now, once[i], model) {
      EnforcedMembers(config, now, chain, once[i]);
      var j :| 0 <= j < |chain| && chain[j] == once[i];
      assert VouchedBy(config, now, chain[j], model);
    }
    if j :| && 0 <= j < |chain| && VouchedBy(config, now, chain[j], model)
            && Vouched(config, now, chain, chain[j].service) {
      EnforcedMembers(config, now, chain, chain[j]);
      var i :| 0 <= i < |once| && once[i] == chain[j];
      assert VouchedBy(config, now, once[i], model);
    }
  }

  /** Enforcing again changes nothing exactly when every vouched target has a
      voucher that is vouched for itself. */
  lemma {:induction false} EnforcedTwiceIff(config: Config, now: nat, chain: seq<Target>)
    ensures Enforced(config, now, Enforced(config, now, chain)) == Enforced(config, now, chain) <==>
            VouchersLast(config, now, chain)
  {
    var once := Enforced(config, now, chain);
    var second := Verdicts(config, now, Representatives(config, once));
    RetainedAll(config, second, once);
    forall t ensures Keeps(config, second, t) <==>
                     !IsConfidential(config, t) || LastingVoucher(config, now, chain, t.service) {
      KeepsIff(config, now, once, t);
      EnforcedVouches(config, now, chain, t.service);
    }
    if VouchersLast(config, now, chain) {
      forall t | t in once ensures Keeps(config, second, t) {
        EnforcedMembers(config, now, chain, t);
        var i :| 0 <= i < |chain| && chain[i] == t;
      }
    } else {
      var i :| && 0 <= i < |chain| && IsConfidential(config, chain[i]) && Vouched(config, now, chain, chain[i].service)
               && !LastingVoucher(config, now, chain, chain[i].service);
      EnforcedMembers(config, now, chain, chain[i]);
    }
  }

  /** With echoing verifiers enforcing is idempotent. */
  lemma {:induction false} EchoingEnforcesOnce(config: Config, now: nat, chain: seq<Target>)
    requires Echoing(config, now, chain)
    ensures Enforced(config, now, Enforced(config, now, chain)) == Enforced(config, now, chain)
  {
    forall i | 0 <= i < |chain| && IsConfidential(config, chain[i]) && Vouched(config, now, chain, chain[i].service)
      ensures LastingVoucher(config, now, chain, chain[i].service)
    {
      var j :| 0 <= j < |chain| && VouchedBy(config, now, chain[j], chain[i].service);
      assert VouchedBy(config, now, chain[j], chain[j].service);
    }
    EnforcedTwiceIff(config, now, chain);
  }

  /** A verdict about another model can vouch for a target that the next pass drops. */
  lemma {:induction false} ForeignVerdictKeepsOnce(config: Config, now: nat, u: Target, t: Target)
    requires IsConfidential(config, u) && IsConfidential(config, t) && u.service != t.service
    requires OwnVerdict(config, now, u).verified && OwnVerdict(config, now, u).model == t.service
    requires !OwnVerdict(config, now, t).verified
    ensures Enforced(config, now, [u, t]) == [t] && Enforced(config, now, [t]) == []
  {
    var chain := [u, t];
    assert VouchedBy(config, now, chain[0], t.service);
    KeepsIff(config, now, chain, u);
    KeepsIff(config, now, chain, t);
    KeepsIff(config, now, [t], t);
    assert chain[..1] == [u] && [u][..0] == [] && [t][..0] == [];
    var verdicts := Verdicts(config, now, Representatives(config, chain));
    assert Retained(config, verdicts, [u]) == [];
    assert Retained(config, verdicts, chain) == [] + [t];
    var again := Verdicts(config, now, Representatives(config, [t]));
    assert !VouchedBy(config, now, [t][0], t.service);
    assert Retained(config, again, [t]) == Retained(config, again, []) + [];
  }
}
