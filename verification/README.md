# A verified model of BitRouter's hard core

This project models five parts of BitRouter and proves what they promise.

- **Streaming guardrails** (`GuardrailRules`, `GuardrailStreaming`, `ReplaceAllFacts`, `GuardrailRedaction`, `RedactionLeaks`,
  `GuardrailHooks`).
  A response arrives in deltas; `Block` rules are looked for in the last 128 characters plus the new delta, `Redact` rules
  are applied to each delta alone. Proved: when the verdict equals that of scanning the whole text, with the exact limit;
  when redacting piecewise equals redacting the whole; that the stateless hook behaves as one long-lived matcher.
- **The Bedrock translator** (`Json`, `Canonical`, `BedrockContent`, `BedrockStream`). Round trips between the canonical
  content, Converse blocks and documents, and the streamed decoder against the one-shot decoder.
- **The skills installer** (`FileTree`, `SkillInstall`, `LinkTrace`, `LinkEscape`, `InstalledTree`, `SkillSource`,
  `SkillTreeUrl`, `Frontmatter`). Installation over a file system with symbolic links in which every operation can fail, also halfway;
  where the installed files come from when the fetched tree holds links; source parsing, printing and wire conversion;
  the fence scanner and skill discovery.
- **The attestation route filter** (`Attestation`).
- **Provider protocols and defaults** (`ProtocolMapping`, `PatternMap`, `ProviderDefaults`).

`Wrappers` and `Strings` hold `Option`, `Result` and facts about text.

Code that updates state in the repository is written as classes and loops here, each proved against a specification
function or predicate; the lemmas are about those. Automatic induction is switched off throughout, so every induction
is written out. The matcher, the rule set, the stream context, the stream decoder, the
file system, the route and the configuration are classes.

## What the proofs found

- Detection is exact up to 129 characters, one more than the carry, and beyond that exactly when every longer `Block` word
  contains another `Block` word of at most 129 (`GuardrailStreaming.DetectionIsExact`).
- The documented Redact gap is real: a word cut by a delta boundary is emitted whole (`GuardrailRedaction.SplitWordEscapes`).
- Sharing no character with `[REDACTED]` is more than redaction needs: it is enough that no word can overlap the
  placeholder. That is not needed either, since `[[` can overlap it and is never left
  (`RedactionLeaks.BracketsTouchButDoNotLeak`). For one word `ReplaceAllFacts.OneWordRuleLeaksIff` gives the exact condition,
  for a rule of several words `RedactionLeaks.RuleLeaksIff` names finitely many texts that decide it, and for a rule list
  `RedactionLeaks.RulesLeakIff` finitely many characters.
- Redacting delta by delta equals redacting the whole, for one word and any number of deltas, exactly when the scan of the
  whole picks no match across a boundary (`GuardrailRedaction.OneWordStreamSplitsIff`).
- A `Block` word with a newline can match across two request fragments; without one it cannot (`GuardrailHooks.FragmentScanIsExact`).
- Streamed and one-shot Bedrock text agree for all fragments exactly when text arrives in block order, whatever comes between
  (`BedrockStream.StreamTextOrderIsExact`); tool calls agree under any interleaving, exactly when every tool's fragments add
  up to JSON (`BedrockStream.CallsAgreeIff`), so not for a tool that is given no input
  (`BedrockStream.ToolWithoutInputDisagrees`). The stream also delivers reasoning text, which the one-shot decoder skips.
- Discovery and the copy follow symbolic links on the way to a directory; only the entries inside a copied directory are
  tested for being links. A cloned repository whose `skills` is a link to a directory of the installing machine is therefore
  installed with the files of that directory (`LinkEscape.InstallsForeignFiles`). What is installed comes from inside the
  clone, wherever that is made, exactly when no searched path of the cloned tree passes through a link that leaves it
  (`LinkTrace.AlwaysInCloneIff`). A local source is free of this, as its copy holds no links (`LinkTrace.InstalledFromLocal`).
- A local source that contains the temporary directory cannot be fetched when everything on the way down can be read: the copy
  goes on into itself until paths are too long (`FileTree.FileSystem.CopyDir`).
- A directory entry that cannot be read is skipped without an error, so an install can succeed incomplete;
  `SkillInstall.LocalInstallIsOnePruneIff` says exactly when it is complete.
- Discovery follows a link at `SKILL.md`, and the copy leaves links out. An installation can therefore succeed with a
  directory that listing the installed skills does not show: exactly when the `SKILL.md` it was found by is a link or could
  not be read for the copy (`InstalledTree.InstalledIsShownIff`).
- A link at the destination is followed by the test for an existing install and unlinked by the removal. One that leads
  nowhere is not seen by the test and makes the final rename fail (`SkillInstall.Install`).
- A repository URL comes back only if its ref does not end in white space (`SkillSource.RepoUrlRoundTripIff`). A
  subdirectory path may end in `#`, but may not hold one before its end; a ref with a slash never comes back
  (`SkillTreeUrl.TreeUrlRoundTripIff`).
- The shorthand `o/.git` parses to a source with an empty repository name that the wire conversion rejects (`SkillSource.EmptyRepoIsLost`).
- Enforcing attestation keys on the model alone: a target whose provider has no verifier is kept beside a verified target
  of another provider with the same model (`Attestation.UnknownProviderKept`). Every target follows its own verdict exactly
  when that verdict is verified just if some verdict vouches for the target's model (`Attestation.EnforcedByOwnVerdictIff`).
  With verifiers that echo the model they were asked about, that is when targets of one model agree
  (`Attestation.EchoingDecidesIff`); without, a lone target verified under another model's name is dropped
  (`Attestation.MisnamedIsDropped`).
- The order of the entries of a protocol mapping matters in one tie only (`ProtocolMapping.OrderMattersIff`), which goes by
  the last byte of the model id (`ProtocolMapping.TieInKeyOrder`), and the pattern
  map that the built-in mapping is translated to prefers the literal where the mapping prefers a wildcard
  (`PatternMap.ResolutionsAgree`).
- Enforcing attestation a second time can drop more; it does not exactly when every target that is vouched for has a voucher
  that is vouched for itself (`Attestation.EnforcedTwiceIff`).
- Filling defaults is idempotent for a fixed environment. When the environment changes in between it fails in two ways: a
  provider switched off for want of a key stays off when the key arrives later (`ProviderDefaults.LateKeyStaysOff`), and a key
  taken from the environment stays when it is changed or withdrawn there (`ProviderDefaults.OldKeyStays`). There is no third
  (`ProviderDefaults.RefillIff`, and `ProviderDefaults.ApplyAgainIff` for a whole configuration).

## Model

| member | source | states |
|---|---|---|
| `GuardrailRules.FirstBlockIsEarliest` | plugins/bitrouter-guardrails/src/rules.rs:102-108 | the named rule is the earliest matching `Block` rule; none is named exactly when none matches |
| `GuardrailRules.FirstBlockDependsOnWords` | plugins/bitrouter-guardrails/src/rules.rs:102-108 | texts containing the same `Block` words get the same verdict |
| `GuardrailRules.MatchLength` | plugins/bitrouter-guardrails/src/rules.rs:117 | a match starts here exactly when a word of the pattern does, and is as long as that word |
| `GuardrailRules.RuleSet.Push` | plugins/bitrouter-guardrails/src/rules.rs:91-95 | the rule is added at the end |
| `GuardrailRules.RuleSet.Redact` | plugins/bitrouter-guardrails/src/rules.rs:110-125 | the loop applies the `Redact` rules in order and reports a change exactly when one of them changed its input |
| `GuardrailRules.SlidingWindowMatcher.constructor` | plugins/bitrouter-guardrails/src/rules.rs:159-164 | a fresh matcher has seen nothing |
| `GuardrailRules.SlidingWindowMatcher.WithCarry` | plugins/bitrouter-guardrails/src/rules.rs:167-174 | restoring keeps the carry as it is |
| `GuardrailRules.SlidingWindowMatcher.Feed` | plugins/bitrouter-guardrails/src/rules.rs:184-202 | with `Block` words of at most 129 characters the verdict is that on everything fed so far; the carry is always the last 128 characters of it; a block changes nothing |
| `GuardrailRules.ShortWordInWindow` | plugins/bitrouter-guardrails/src/rules.rs:137-140 | a word of at most 129 characters that was not complete before a delta is in the window exactly when it is in the whole text |
| `GuardrailRules.WindowSeesEnough` | plugins/bitrouter-guardrails/src/rules.rs:184-191 | scanning carry plus delta names the same rule as scanning the whole text |
| `GuardrailRules.LastCharsSuffice` | plugins/bitrouter-guardrails/src/rules.rs:196-199 | the last 128 characters stand in for a text without a match, verdict and next carry alike |
| `GuardrailStreaming.FeedAll` | plugins/bitrouter-guardrails/src/rules.rs:184-202 | feeding one matcher delta after delta is the specified run |
| `GuardrailStreaming.StreamBlocksAtFirstMatchingPrefix` | plugins/bitrouter-guardrails/src/rules.rs:184-202 | for any chunking the run blocks at exactly the first delta completing a match in the accumulated text, with the rule name of that text |
| `GuardrailStreaming.DetectionIsExact` | plugins/bitrouter-guardrails/src/rules.rs:137-140 | all chunkings are judged like their whole text if and only if every `Block` word over 129 characters contains a shorter `Block` word |
| `GuardrailStreaming.VerdictIgnoresChunking` | plugins/bitrouter-guardrails/src/rules.rs:142-148 | two chunkings of one text end alike, and as the whole text does |
| `GuardrailStreaming.LongWordMissed` | plugins/bitrouter-guardrails/src/rules.rs:137-140 | any single word of 130 characters gets through one character at a time |
| `ReplaceAllFacts.NoNewOccurrence` | plugins/bitrouter-guardrails/src/rules.rs:117 | a word that cannot overlap the placeholder occurs in the output only if it occurred in the input, and never if the pattern has it |
| `ReplaceAllFacts.NothingToReplace` | plugins/bitrouter-guardrails/src/rules.rs:117 | a text without a match is returned unchanged |
| `ReplaceAllFacts.OneWordRuleLeaksIff` | plugins/bitrouter-guardrails/src/rules.rs:117 | one replace-all pass leaves its own word in some text if and only if the word can be rebuilt around a placeholder |
| `GuardrailRedaction.RedactedTextIsClean` | plugins/bitrouter-guardrails/src/rules.rs:112-125 | whatever the rule order, no `Redact` word is left |
| `GuardrailRedaction.RedactAddsNothing` | plugins/bitrouter-guardrails/src/rules.rs:112-125 | a word that cannot overlap the placeholder is in the output only if it was in the input |
| `GuardrailRedaction.ChangedIffWordOccurs` | plugins/bitrouter-guardrails/src/rules.rs:112-125 | the flag is false exactly when no `Redact` word occurs, and then the text is unchanged |
| `GuardrailRedaction.RedactIsIdempotent` | plugins/bitrouter-guardrails/src/rules.rs:112-125 | redacting twice is redacting once |
| `GuardrailRedaction.DisjointCharactersSuffice` | plugins/bitrouter-guardrails/src/rules.rs:71 | words without a character of the placeholder cannot overlap it |
| `GuardrailRedaction.RedactSplits` | plugins/bitrouter-guardrails/src/rules.rs:112-125 | redaction distributes over a boundary that no `Redact` word straddles |
| `GuardrailRedaction.RedactEachIsRedactWhole` | plugins/bitrouter-guardrails/src/rules.rs:193-194 | the deltas redacted one by one join to the redaction of the joined deltas |
| `GuardrailRedaction.StreamEmitsRedactedText` | plugins/bitrouter-guardrails/src/rules.rs:193-201 | an unblocked run emits the redaction of its whole text, free of `Redact` words |
| `GuardrailRedaction.OneWordSplitsIff` | plugins/bitrouter-guardrails/src/rules.rs:117 | for one word, piecewise equals whole if and only if the scan of the whole picks no match across the boundary |
| `GuardrailRedaction.OneWordSplitsEachIff` | plugins/bitrouter-guardrails/src/rules.rs:117 | the same for any number of parts: if and only if the scan of the whole crosses none of their boundaries |
| `GuardrailRedaction.OneWordStreamSplitsIff` | plugins/bitrouter-guardrails/src/rules.rs:193-194 | the same of a rule set that redacts one word |
| `GuardrailRedaction.SplitWordEscapes` | plugins/bitrouter-guardrails/src/rules.rs:146-148 | a word cut by a boundary is emitted untouched though redacting the whole removes it |
| `RedactionLeaks.RuleLeaksIff` | plugins/bitrouter-guardrails/src/rules.rs:117 | whatever its words, a rule leaves a word in some output if and only if it does for one of finitely many texts: no longer than that word's length times the length of its longest word, and made of the characters of the words and one other |
| `RedactionLeaks.RulesLeakIff` | plugins/bitrouter-guardrails/src/rules.rs:112-125 | a rule list leaves a word in some output if and only if it does for a text made of the characters of the words and one other |
| `RedactionLeaks.BracketsTouchButDoNotLeak` | plugins/bitrouter-guardrails/src/rules.rs:117 | `[[` can overlap the placeholder and is never left by its rule |
| `GuardrailHooks.RequestText` | plugins/bitrouter-guardrails/src/hooks.rs:38-89 | the buffer is the scannable fragments in order, each with a newline |
| `GuardrailHooks.CheckRequest` | plugins/bitrouter-guardrails/src/hooks.rs:132-146 | no rules allow; otherwise the request is denied with the rule that scanning the buffer names |
| `GuardrailHooks.FragmentScanIsExact` | plugins/bitrouter-guardrails/src/hooks.rs:38-89 | a word is found only inside single fragments, for all fragment lists, if and only if it has no newline |
| `GuardrailHooks.RequestScanNamesFirstRule` | plugins/bitrouter-guardrails/src/hooks.rs:139-144 | with newline-free words the scan fires exactly when some fragment holds a word, naming the first rule that fires on any fragment |
| `GuardrailHooks.StreamContext.OnPart` | plugins/bitrouter-guardrails/src/hooks.rs:188-228 | loads the carry, feeds one delta, stores the carry; passes, replaces by one part of the same kind, or aborts |
| `GuardrailHooks.StreamContext.ProcessPart` | plugins/bitrouter-guardrails/src/hooks.rs:180-186 | parts without text bypass the hook |
| `GuardrailHooks.StreamContext.ProcessStream` | plugins/bitrouter-guardrails/src/hooks.rs:178-228 | the loop over all parts is the specified run |
| `GuardrailHooks.HookIsOneMatcher` | plugins/bitrouter-guardrails/src/hooks.rs:154-155 | over every run the stateless hook does what one long-lived matcher fed the text and reasoning deltas does: same end by the same rule, same deltas, in parts of the same kinds and, unless aborted, the same number |
| `GuardrailHooks.HookRunIsGuarded` | plugins/bitrouter-guardrails/src/hooks.rs:188-228 | abort at the first part completing a match, with that rule's name; parts before it come out one for one, same kind, redacted; the stored carry is the last 128 characters before a block; other metadata is untouched |
| `GuardrailHooks.FreshStreamIsGuarded` | plugins/bitrouter-guardrails/src/hooks.rs:165-171 | the same from an empty or ill-shaped carry |
| `GuardrailHooks.NoRulesPass` | plugins/bitrouter-guardrails/src/hooks.rs:189-194 | without rules the stream and its metadata pass untouched |
| `GuardrailHooks.HookEmitsRedactedText` | plugins/bitrouter-guardrails/src/hooks.rs:220-226 | the text leaving an unaborted stream is the redaction of the text entering it, when no word straddles a boundary |
| `BedrockContent.JsonSurvives` | crates/bitrouter-bedrock/src/lib.rs:436-460 | every JSON tree survives the trip through a document, including the integer split at the largest `i64` |
| `BedrockContent.JsonDocumentsAreCanonic` | crates/bitrouter-bedrock/src/lib.rs:441-449 | JSON never yields a small `PosInt` nor a non-finite float |
| `BedrockContent.DocumentSurvivesIff` | crates/bitrouter-bedrock/src/lib.rs:543-567 | a document survives the trip through JSON if and only if it is of that shape |
| `BedrockContent.CanonicalContentToBedrock` | crates/bitrouter-bedrock/src/lib.rs:294-371 | the loop renders the parts in order and stops at the first failure |
| `BedrockContent.BedrockContentToCanonical` | crates/bitrouter-bedrock/src/lib.rs:464-541 | the loop parses the known blocks in order and skips the others |
| `BedrockContent.OutputRoundTrip` | crates/bitrouter-bedrock/src/lib.rs:379-410 | a tool result comes back in normal form with its error status |
| `BedrockContent.ContentRoundTrip` | crates/bitrouter-bedrock/src/lib.rs:294-541 | rendering fails exactly on bad arguments or an unbuildable empty result; otherwise parsing back gives the representable parts in order in normal form |
| `BedrockContent.NormalFormsAreNormal` | crates/bitrouter-bedrock/src/lib.rs:464-541 | the normal form is idempotent and can be sent whenever the original can |
| `BedrockStream.StreamDecoder.EventToParts` | crates/bitrouter-bedrock/src/lib.rs:585-649 | the parts of one event and the block index remembered for a tool |
| `BedrockStream.StreamDecoder.DecodeStream` | crates/bitrouter-bedrock/src/lib.rs:253-270 | the loop yields the parts of all events before the first error, and that error |
| `BedrockStream.CallsMatchRun` | crates/bitrouter-bedrock/src/lib.rs:585-635 | over every well-formed stream the calls put together by id are exactly the tool blocks, name and input |
| `BedrockStream.StreamedCallsAreOneShotCalls` | crates/bitrouter-bedrock/src/lib.rs:464-649 | under any interleaving and fragmentation, same ids, names and JSON arguments as the one-shot decoder |
| `BedrockStream.CallsAgreeIff` | crates/bitrouter-bedrock/src/lib.rs:615-624 | they agree if and only if the input fragments of every tool add up to JSON |
| `BedrockStream.ToolWithoutInputDisagrees` | crates/bitrouter-bedrock/src/lib.rs:589-624 | a tool block without input is streamed as a call with empty arguments, and when these are no JSON matches no one-shot call |
| `BedrockStream.StreamedTextIsOneShotText` | crates/bitrouter-bedrock/src/lib.rs:464-649 | text arriving in block order adds up to the one-shot text |
| `BedrockStream.TextOrderIsExact` | crates/bitrouter-bedrock/src/lib.rs:613-614 | for a stream of text fragments it does so for all fragment texts if and only if the block order never goes down |
| `BedrockStream.StreamTextOrderIsExact` | crates/bitrouter-bedrock/src/lib.rs:464-649 | the same for any well-formed stream, with tool and reasoning events between the fragments |
| `FileTree.FileSystem.CopyDir` | crates/bitrouter-skills/src/install.rs:267-299 | the source is what the path leads to, links followed; when that is a directory apart from the fresh destination, success leaves exactly its pruned tree there, and without faults and within the path limit it succeeds; failure at any step touches nothing else; a file cannot be copied so, nor a directory into itself |
| `FileTree.FileSystem.CopyEntries` | crates/bitrouter-skills/src/install.rs:272-297 | the loop handles every entry, in any order |
| `FileTree.FileSystem.CopyEntry` | crates/bitrouter-skills/src/install.rs:273-296 | `.git`, unreadable entries, symlinks and special files are passed over, the rest is copied |
| `FileTree.RenameMoves` | crates/bitrouter-skills/src/install.rs:221-222 | a rename moves a whole tree to a free place or does nothing |
| `SkillInstall.StagingIsApart` | crates/bitrouter-skills/src/install.rs:106-112 | for a valid name the staging directory is neither inside nor above the destination |
| `SkillInstall.Swap` | crates/bitrouter-skills/src/install.rs:216-223 | what each failure of copying, removing or renaming leaves at the destination; success is the complete copy of what the source leads to; a file there cannot be removed, a link is unlinked, and one that leads nowhere stops the rename |
| `SkillInstall.Place` | crates/bitrouter-skills/src/install.rs:199-229 | the same with the existence check, which follows a link, and both guards: no staging directory appears, a stale one is gone on every exit after it was cleared, and nothing outside the destination changes but new parents |
| `SkillInstall.ChosenIsBelow` | crates/bitrouter-skills/src/install.rs:162-196 | whatever the subdirectory says, the chosen skill is one that discovery found, named by a path below the clone that leads to a directory |
| `SkillInstall.Install` | crates/bitrouter-skills/src/install.rs:137-230 | for every fault plan the destination is the old tree, part of it, absent, or the complete new tree, by error; the temporary directory is gone and no staging directory is left; nothing else changes; every refusal and every success is the one that the fetched tree, the entry at the destination (a link among others) and the request call for, only a failing operation can replace it by an error, and without faults none does |
| `SkillInstall.InstallAt` | crates/bitrouter-skills/src/install.rs:144-230 | the same into a resolved skills directory |
| `SkillInstall.Fetch` | crates/bitrouter-skills/src/install.rs:145-160 | a fetch that succeeds leaves exactly the pruned tree that a local source leads to, or the cloned tree, in the clone directory; the source is rejected exactly when it does not lead to a directory, and one around the clone directory fails |
| `SkillInstall.CopyOfACopy` | crates/bitrouter-skills/src/install.rs:267-299 | pruning a copy removes nothing more |
| `SkillInstall.LocalInstallIsOnePruneIff` | crates/bitrouter-skills/src/install.rs:149-216 | the double copy of a local source equals one prune of the skill's directory if and only if everything to be kept could be read both times |
| `LinkTrace.TraceIsWalk` | crates/bitrouter-skills/src/install.rs:267-299 | the fetched tree alone decides where a path leads, up to where it leaves the tree, whatever surrounds it |
| `LinkTrace.AlwaysInsideIff` | crates/bitrouter-skills/src/frontmatter.rs:80-107 | every skill found in a tree lies in it, on every file system, if and only if no search root and no entry of one leads out of the tree |
| `LinkTrace.AlwaysInCloneIff` | crates/bitrouter-skills/src/install.rs:162-196 | every skill found in a clone lies in the clone, wherever it is made, if and only if no searched path of the cloned tree passes through a link that leaves it |
| `LinkTrace.InstalledFromClone` | crates/bitrouter-skills/src/install.rs:162-216 | then every installation reads its skill from inside the clone, apart from the staging directory, so the content it promises is that of the clone |
| `LinkTrace.InstalledFromLocal` | crates/bitrouter-skills/src/install.rs:149-216 | the skill of a local source is read from the very directory it was found in |
| `InstalledTree.InstalledOfClone` | crates/bitrouter-skills/src/install.rs:144-230 | from a cloned tree whose search stays inside, the destination holds the pruned directory of that tree the skill's path leads to, as far as its entries could be read |
| `InstalledTree.InstalledOfLocalIff` | crates/bitrouter-skills/src/install.rs:144-230 | from a local source, the destination holds the pruned directory of the source itself if and only if everything to be kept could be read both times it was copied |
| `InstalledTree.InstalledIsShownIff` | crates/bitrouter-skills/src/install.rs:246-264 | listing the installed skills shows an installed skill if and only if the `SKILL.md` it was found by is a file, not a link, and could be read for the copy |
| `LinkEscape.InstallsForeignFiles` | crates/bitrouter-skills/src/install.rs:267-290 | with a repository that links to any directory of the machine holding one skill, the installation succeeds and installs exactly that skill's directory of the machine |
| `SkillSource.ParsedIsWellShaped` | crates/bitrouter-skills/src/source.rs:247-324 | what every parsed source looks like: no slash or `.git` left in names, safe subdirectories, with a ref |
| `SkillSource.ParsedSourceSurvivesWireIff` | crates/bitrouter-skills/src/source.rs:58-127 | a parsed git source comes back from the wire if and only if its repository name is not empty |
| `SkillSource.EmptyRepoIsLost` | crates/bitrouter-skills/src/source.rs:311-319 | the shorthand `o/.git` is such a source |
| `SkillSource.NormaliseIsIdempotent` | crates/bitrouter-skills/src/source.rs:90-127 | wire to source to wire is an idempotent normalisation |
| `SkillSource.SafeSubdirStaysInside` | crates/bitrouter-skills/src/source.rs:177-181 | a path that passes the check never leads out of the directory it is joined to |
| `SkillSource.ParsedSubdirStaysInside` | crates/bitrouter-skills/src/source.rs:205-212 | every subdirectory that parsing yields stays inside |
| `SkillSource.RepoUrlRoundTrip` | crates/bitrouter-skills/src/source.rs:247-281 | printing a repository as clone URL with optional ref and parsing gives it back |
| `SkillSource.RepoUrlRoundTripIff` | crates/bitrouter-skills/src/source.rs:161-219 | over all owners, names and refs, exactly when these are proper |
| `SkillTreeUrl.TreeUrlRoundTripIff` | crates/bitrouter-skills/src/source.rs:186-219 | over all owners, names, refs and paths, a subdirectory comes back from its browser URL exactly when the first three are proper segments, the name without `.git` at its end, and the path is safe, has no empty segment, does not end in white space and is not cut by a fragment |
| `Frontmatter.ScanLines` | crates/bitrouter-skills/src/frontmatter.rs:48-57 | the offset loop cuts the text at the first fence line |
| `Frontmatter.ExtractFrontmatterBlock` | crates/bitrouter-skills/src/frontmatter.rs:41-58 | the specified block, after an opening fence with either line ending |
| `Frontmatter.BlockIsTheFencedBlock` | crates/bitrouter-skills/src/frontmatter.rs:32-40 | the result is the text between an opening fence and the first closing fence, none of its lines a fence; none exactly when there is no such text |
| `Frontmatter.FencedBlockIsUnique` | crates/bitrouter-skills/src/frontmatter.rs:32-40 | a text has at most one fenced block |
| `Frontmatter.WrappedBlockComesBack` | crates/bitrouter-skills/src/frontmatter.rs:41-58 | any fence-free block of whole lines, wrapped in fences and followed by anything, is extracted again |
| `Frontmatter.DiscoverAllSkills` | crates/bitrouter-skills/src/frontmatter.rs:80-107 | the loops with the visited set find the skills of the searched directories, each once; a search root that leads to no directory has no entries |
| `Frontmatter.SkillsOfExactly` | crates/bitrouter-skills/src/frontmatter.rs:77-79 | all of them, nothing else, no directory twice |
| `Frontmatter.DiscoveredIff` | crates/bitrouter-skills/src/frontmatter.rs:77-107 | with a listing that gives the readable entries of a directory, a skill is found if and only if its directory is a search root or an entry of what one leads to, and its `SKILL.md` leads to a file with a readable block |
| `Frontmatter.DiscoveredBelow` | crates/bitrouter-skills/src/frontmatter.rs:69-75 | every skill found is named by a path at or below the search root, leads to a directory and has a readable block |
| `Attestation.Route.Gather` | plugins/bitrouter-attestation/src/hooks.rs:48-74 | the loop with the `seen` set takes one verdict per key |
| `Attestation.Route.Retain` | plugins/bitrouter-attestation/src/hooks.rs:94-101 | the chain is filtered in place |
| `Attestation.Route.Resolve` | plugins/bitrouter-attestation/src/hooks.rs:38-105 | verdicts are recorded whenever there are any; recording leaves the chain alone; enforcing filters it |
| `Attestation.OneVerdictPerKey` | plugins/bitrouter-attestation/src/hooks.rs:45-55 | the verdicts are one per distinct confidential provider and model, in order of first occurrence |
| `Attestation.RetainedInOrder` | plugins/bitrouter-attestation/src/hooks.rs:91-102 | the kept targets are an ordered part of the chain, exactly those not confidential or with a verified verdict for their model |
| `Attestation.KeepsIff` | plugins/bitrouter-attestation/src/hooks.rs:98-100 | a confidential target is kept exactly when some confidential target of the chain has a verified verdict for its model |
| `Attestation.EnforcedByOwnVerdictIff` | plugins/bitrouter-attestation/src/hooks.rs:93-102 | enforcing follows each target's own verdict if and only if, for every confidential target, that verdict is verified exactly when some verdict of the chain vouches for its model |
| `Attestation.EchoingDecidesIff` | plugins/bitrouter-attestation/src/hooks.rs:93-102 | with echoing verifiers, that is so if and only if no two confidential targets of one model disagree |
| `Attestation.MisnamedIsDropped` | plugins/bitrouter-attestation/src/hooks.rs:98-100 | without echoing, a lone target verified under another model's name is dropped |
| `Attestation.UnknownProviderKept` | plugins/bitrouter-attestation/src/hooks.rs:69-71 | a registry miss is unverified, dropped alone, and kept beside a verified target of the same model |
| `Attestation.EnforcedTwiceIff` | plugins/bitrouter-attestation/src/hooks.rs:93-102 | enforcing again changes nothing if and only if every confidential target that some target vouches for has a voucher that is vouched for itself |
| `Attestation.RetainedTwice` | plugins/bitrouter-attestation/src/hooks.rs:94-101 | for fixed verdicts, filtering twice is filtering once |
| `Attestation.EchoingEnforcesOnce` | plugins/bitrouter-attestation/src/hooks.rs:93-102 | with echoing verifiers enforcing is idempotent |
| `Attestation.ForeignVerdictKeepsOnce` | plugins/bitrouter-attestation/src/hooks.rs:98-100 | without echoing it need not be |
| `ProtocolMapping.Resolve` | crates/bitrouter-providers/src/entry.rs:80-96 | nothing exactly when no pattern matches; otherwise the list of the first among the longest matching patterns |
| `ProtocolMapping.TieIsExactAgainstWildcard` | crates/bitrouter-providers/src/entry.rs:102-108 | two matching patterns of one length are the model id and the wildcard one byte shorter |
| `ProtocolMapping.OrderDoesNotMatter` | crates/bitrouter-providers/src/entry.rs:86-93 | unless both sides of that tie are keys and no longer wildcard beats them, the answer does not depend on the order of the entries |
| `ProtocolMapping.OrderMattersIff` | crates/bitrouter-providers/src/entry.rs:86-93 | two orders give two answers if and only if the tie is open in this sense and its sides have different lists |
| `ProtocolMapping.TieInKeyOrder` | crates/bitrouter-providers/src/entry.rs:74 | in key order the wildcard wins the tie exactly when the id's last byte comes after the star |
| `PatternMap.BestIsMostSpecific` | crates/bitrouter-sdk/src/config/pattern.rs:79-85 | the chosen entry matches and is most specific; none exactly when none matches |
| `PatternMap.ToPatternMap` | crates/bitrouter-providers/src/apply.rs:145-156 | the loop translates the mapping entry by entry |
| `PatternMap.ResolutionsAgree` | crates/bitrouter-providers/src/apply.rs:141-156 | mapping and translated map answer alike, except that where a wildcard shadows the literal the map takes the literal and the mapping the wildcard |
| `ProviderDefaults.LoadEmbedded` | crates/bitrouter-providers/src/builtin.rs:61-80 | the error is that of the first file with one: it does not parse, declares another id, or repeats a name; without any, every file gives its entry, under different ids |
| `ProviderDefaults.FindsEveryEntry` | crates/bitrouter-providers/src/builtin.rs:55-57 | with different ids every entry is found under its own |
| `ProviderDefaults.FillProvider` | crates/bitrouter-providers/src/apply.rs:100-137 | filling one provider field by field |
| `ProviderDefaults.Config.ApplyBuiltinDefaults` | crates/bitrouter-providers/src/apply.rs:92-139 | every provider with a built-in is filled, whatever the iteration order; nothing happens when inheritance is off |
| `ProviderDefaults.ApplyIsIdempotent` | crates/bitrouter-providers/src/apply.rs:91 | for a fixed environment applying twice is applying once |
| `ProviderDefaults.ApplyRespectsUser` | crates/bitrouter-providers/src/apply.rs:80-89 | non-empty fields, account-managed credentials and fields without a default stay; no provider is switched on; custom providers are untouched |
| `ProviderDefaults.ActiveIffUsable` | crates/bitrouter-providers/src/apply.rs:119-137 | a provider without accounts stays active exactly when it has a key by then or needs none |
| `ProviderDefaults.ZeroConfig` | crates/bitrouter-providers/src/apply.rs:36-69 | exactly the entries with a non-empty credential are enabled, with default fields and model discovery |
| `ProviderDefaults.ZeroConfigIsUsable` | crates/bitrouter-providers/src/apply.rs:36-69 | after filling, every enabled provider is active with its environment value as a non-empty key |
| `ProviderDefaults.AutoEnabledIsActiveIff` | crates/bitrouter-providers/src/builtin.rs:55-57 | whatever the ids, an enabled provider ends up active exactly when the entry found under its id has a credential or needs none |
| `ProviderDefaults.RefillIff` | crates/bitrouter-providers/src/apply.rs:91-137 | filling under one environment and again under another equals filling under the second if and only if there are accounts, a key of the user's own, the same credential in both, or none in the first for a provider that is off |
| `ProviderDefaults.ApplyAgainIff` | crates/bitrouter-providers/src/apply.rs:91-137 | the same for a whole configuration |
| `ProviderDefaults.OldKeyStays` | crates/bitrouter-providers/src/apply.rs:119-124 | a key taken from the environment stays, and refilling agrees only if the environment still holds it |
| `ProviderDefaults.LateKeyStaysOff` | crates/bitrouter-providers/src/apply.rs:135-137 | across environments a provider once switched off stays off though it gets its key |

## Left out

- Regular expressions: a pattern is the finite list of literal non-empty words it accepts, in order of preference; anchors, look-around, word boundaries and unbounded patterns are not modelled.
- Text is a sequence of characters, except in protocol resolution, where it is bytes.
- BedrockContent.NormalFormsAreNormal: takes JSON printing and parsing as inverse (`Codec.Valid`); the printer and the parser are not modelled.
- BedrockContent.ContentRoundTrip: whether the AWS builder accepts a tool result without content is a parameter; that library is not part of this model.
- RedactionLeaks.RulesLeakIff: bounds the characters of a witness, not its length.
- Error messages: a denial or an abort carries the rule name that its message quotes, not the wording around it.
- Doubles are only moved, never computed with, so a finite one is its bit pattern.
- Bedrock usage mapping, inference settings, roles and error mapping: single branches.
- SkillInstall.Install: the temporary and the skills directory are given as resolved paths, so that a link on the way to them is an obstacle; cleanup by the drop guards is taken to succeed, as is the removal of a stale temporary or staging directory; neither of the temporary and the skills directory contains the other; reading `SKILL.md` files cannot fail on its own.
- FileTree.FileSystem.CopyDir: what a copy into the source itself leaves is not said when an entry on the way down is named `.git` or cannot be read.
- LinkTrace.AlwaysInCloneIff: speaks of every skill that discovery finds; which of them is installed depends on their names as well.
- File system: a map from paths to entries. Symbolic links are followed where the source looks something up or reads it, up to 40 in one lookup; a link target goes up any number of directories first and down afterwards. Permissions, hard links, concurrent changes and Windows paths are not modelled.
- Git cloning writes a given tree, whole, in part or not at all. YAML, and the order in which a directory is listed, are parameters.
- Removing an installed skill, and the order in which installed skills are listed: single calls after the same name check.
- Attestation: a verifier is a function of model and time, so the verdict cache and fresh nonces are fixed during one resolution; serialising the verdicts cannot fail.
- ProviderDefaults.LoadEmbedded: the TOML parser is a parameter, as is the environment with its override map.
- PatternMap.ResolutionsAgree: keys are shorter than the largest machine word, as any allocation is.
- HTTP, the daemon, the command line, policy, metering, payment, key handling and the SDK pipeline.
