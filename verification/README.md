# NSClient++ core: a verified model

NSClient++ is a monitoring agent. This project models the parts of it whose
correctness is not visible from reading one function: state machines that must
hold over every interleaving, loops with a simple specification behind them, and
transformations that must not change meaning. Each part has three layers where
the source calls for it: a declarative specification, the code in its own form
(a class whose methods change fields, a loop with invariants, a recursion), and
lemmas over all inputs or all runs that tie the two together.

| module | part of the agent |
|---|---|
| `FactTree`, `FactSpec`, `FactRepository` | the facts document store: validation, canonical order, byte budget, lazy hash cache, lazily frozen rounds |
| `Glob`, `Permissions`, `AccessPolicy` | one meaning of globs, the backtracking matcher and the rule table on it, the glob-to-regex compiler and the access gate on it |
| `RrdBuffer` | the three cascaded rings of samples |
| `FailedChecks`, `Redaction` | the bounded log of failed checks and what it takes out of messages and arguments |
| `ScriptSwap` | replacing the live scripts tree, rollback, and recovery at boot |
| `Commands` | the command and alias registry |
| `PathManager` | expanding `${token}` paths with a depth guard |
| `Crc32`, `Base64` | the two codecs, after section 8 of RFC 1952 and section 4 of RFC 4648 |
| `Text` | strings: order, case, search, split, join, trim |

A string is a sequence of characters, one per byte of the source's string. Every
locked method is one atomic step. Encoding, rendering and digesting a facts
document, and the `${...}` splitter, are parameters the theorems quantify over.

## What the proofs found

- The backtracking matcher tests for a literal before it tests for a star, so a
  `*` in the text can make it miss a match. It is sound always. It decides the
  glob for every pattern if and only if the text holds no `*`
  (`Glob.DecidesIffStarFree`), and for every text if and only if the pattern
  holds none (`Glob.DecidedIffStarless`).
- Patterns are compared through C strings. `P:` therefore also matches a
  principal that starts with NUL, and `P:*` misses a principal of two or more
  characters that starts with `*`; `Permissions.TrailingColonPattern` and
  `Permissions.AnyPrincipalPattern` state both patterns exactly.
- Recording a failed check looks at the configuration twice, and the second look
  only asks whether the store is enabled. A store switched off and on again in
  between keeps the entry (`FailedChecks.OutlivesTheSwitchOff`); the exact
  condition, over any run in between, is `FailedChecks.StoredIffEnabledAtCommit`.
- An apply whose last step, writing applied-state.json, fails is reported as
  failed. The agent skips the reload it asks for on success, while the new
  scripts are live and the new hash is the one it polls with
  (`ScriptSwap.FailedSaveIsLive`; what each way of failing leaves is
  `ScriptSwap.FailureLeaves`).
- Errors of removing scripts.old are ignored. If that removal stops half way
  after a finished apply, the next ordinary restart takes the rest for an
  interrupted apply and puts it back over the new scripts
  (`ScriptSwap.FinishedApplyUndone`, exactly when in
  `ScriptSwap.RestartAfterSweep`).
- If a promote fails and the old tree cannot be put back, it is whole in
  scripts.old and a restart restores it; but the next apply starts by removing
  scripts.old (`ScriptSwap.RetryAfterStuckLosesTheTree`). It survives a death if
  and only if that removal has not begun (`ScriptSwap.RetryAfterStuck`).
- While a leftover scripts.old is being removed, a death loses both trees: the
  boot puts what is left of the old one over the live one
  (`ScriptSwap.BothTreesLost`, exactly when in `ScriptSwap.DeathDuringClearing`).
- applied-state.json is checked after it is written and not after it is closed,
  so an apply can finish with nothing saved (`ScriptSwap.FinishedButNotSaved`).
  The next boot then asks for everything again (`ScriptSwap.BootAfterFinish`).
- A sync thread that starts again in the same process loads the saved bundles on
  top of the ones it has, so each is listed twice
  (`ScriptSwap.RerunDoublesBundles`, exactly when in `ScriptSwap.RerunBundles`).
- The depth guard of path expansion bounds the depth, not the work: a token that
  stands for itself twice costs 2^34 - 1 calls (`PathManager.DoubledCycleCost`;
  the bound for every map is `PathManager.CallsBound`).
- A process death while scripts.old is being removed makes the next boot restore
  what is left of it (`ScriptSwap.SweepDeathLosesAFile`, exactly when in
  `ScriptSwap.DeathDuringSweep`). A death in the first promote ever leaves a
  partial tree (`ScriptSwap.FirstPromoteDeathLeavesAPart`, exactly when in
  `ScriptSwap.DeathDuringPromote`).
- Recovery forgets the applied hashes in memory only, so a second restart brings
  them back (`ScriptSwap.SecondBootRemembers`).
- A plugin registered under an id other than the one it reports leaves its
  description behind when it is unloaded (`Commands.ForeignIdLeavesADescription`,
  exactly when in `Commands.UnloadIff`).

## Model

| member | source | states |
|---|---|---|
| FactTree.IsValidKey | service/fact_repository.hpp:428-436 | accepts exactly the keys of 1 to 64 characters that start with a letter a-z and go on with the allowed characters |
| Text.LessIff | service/fact_repository.hpp:521-531 | one byte string comes before another if and only if it is a proper prefix, or smaller at the first place they differ: the order of the name map |
| FactTree.ValidKeyIff | service/fact_repository.hpp:428-436 | the valid keys, written out: 1 to 64 of a-z, 0-9 and underscore, the first of them a letter |
| FactTree.RecordIdIff | service/fact_repository.hpp:634-638 | a record has an id if and only if its field id is a non-empty string |
| FactTree.RulesByNumber | service/fact_repository.hpp:71-75 | lists of up to 5000 entries and objects of up to 6 levels are accepted, larger ones are not |
| FactTree.ValidateObject | service/fact_repository.hpp:570-591 | accepts an object if and only if its keys are valid and distinct, its values keep the rules, and it nests no deeper than the room left |
| FactTree.Validate | service/fact_repository.hpp:593-609 | the same for any value, as an if-and-only-if |
| FactTree.ValidateList | service/fact_repository.hpp:616-648 | accepts a list if and only if it is short enough and holds only strings, or only records with distinct non-empty ids, within the depth |
| FactTree.ValidateRecords | service/fact_repository.hpp:626-646 | the record half of the list walk, with the set of ids seen so far |
| FactTree.Find | include/nscapi/protobuf/facts.hpp:46-56 | the first field with the key, and none if and only if no field has it |
| FactTree.SortByKeySorts | include/nscapi/protobuf/facts.hpp:69-90 | sorting distinct keys gives a strictly sorted permutation |
| FactTree.CanonFind | include/nscapi/protobuf/facts.hpp:69-90 | canonical order changes no lookup except to put the value found in canonical order |
| FactTree.CanonIffSame | service/fact_repository.hpp:96-116 | two valid objects have one canonical form if and only if they differ only in the order of fields, at any depth |
| FactTree.CanonKeepsRules | service/fact_repository.hpp:96-116 | the canonical form of a valid object is valid |
| FactTree.LookupIffPathLeads | service/fact_repository.hpp:182-212 | dotted lookup is the inverse of joining keys: it finds v if and only if the path is the join of a non-empty key sequence leading to v |
| FactSpec.CanonIdempotent | include/nscapi/protobuf/facts.hpp:69-90 | canonical order is reached in one pass |
| FactSpec.SameAsCanon | include/nscapi/protobuf/facts.hpp:69-90 | the canonical form is the same object up to field order |
| FactSpec.DocumentFind | service/fact_repository.hpp:521-531 | the document holds exactly the stored sets, each under its name |
| FactSpec.DocumentSorted | service/fact_repository.hpp:521-531 | the document lists its sets in strict key order |
| FactSpec.DocumentCanonical | service/fact_repository.hpp:521-531 | in every consistent store the document is valid in shape and already canonical at every level |
| FactSpec.EraseCounted | service/fact_repository.hpp:652-662 | erasing a set takes its encoding out and its size off the sum |
| FactSpec.StoreCounted | service/fact_repository.hpp:107-126 | the size after storing is the sum with the old encoding of that name replaced by the new one |
| FactSpec.DroppedFits | service/fact_repository.hpp:401-420 | after lowering the budget the kept sets fit |
| FactSpec.DroppedLargestFirst | service/fact_repository.hpp:401-420 | every dropped set is at least as large as every kept one |
| FactSpec.DroppedFirstFit | service/fact_repository.hpp:401-420 | no shorter run of drops would have fitted: dropping stops at the first fit |
| FactSpec.StepKeepsInv | service/fact_repository.hpp:91-178 | every operation keeps the domains of sets, encodings and owners equal, gathered within them, every set valid and canonical, and the size within the budget |
| FactSpec.RunKeepsInv | service/fact_repository.hpp:91-420 | the same over every history |
| FactSpec.StepRevision | service/fact_repository.hpp:664-667 | the revision rises by exactly one if the encoded map changes, however many sets one call drops, and not otherwise |
| FactSpec.EmptyInv | service/fact_repository.hpp:71-80 | a new store keeps the rules, with a budget of one mebibyte |
| FactSpec.RunRevision | service/fact_repository.hpp:91-178 | over every history the revision counts the operations that changed the stored document |
| FactSpec.StepLeavesOthers | service/fact_repository.hpp:143-178 | storing, retaining and unloading by another plugin leaves a set and its owner alone |
| FactSpec.RunLeavesOthers | service/fact_repository.hpp:91-178 | the same over any number of such operations |
| FactSpec.StoredBelongs | service/fact_repository.hpp:91-129 | after a set that changed something: unloading that plugin drops it, every other plugin is rejected, its own is rejected only for what it offers, the document has the new value under the name, and every other lookup is as before |
| FactSpec.RefusedIff | service/fact_repository.hpp:91-129 | exactly when a set is rejected, and that one which is not changed leaves the whole store as it was |
| FactSpec.BelongsToLastSetter | service/fact_repository.hpp:91-129 | over every history a stored set belongs to the plugin of the last call that changed it, and is what that call offered in canonical order |
| FactSpec.MentionsIff | service/fact_repository.hpp:556-563 | ids mention a name if and only if one is the name, or the name, a dot and something more |
| FactSpec.Survives | service/fact_repository.hpp:133-178 | which stored sets are left, untouched, by removing one, unloading a plugin and retaining what it produces |
| FactSpec.BesideTheSets | service/fact_repository.hpp:143-420 | what the declarations, the stamps and the budget are after each operation that sets them |
| FactSpec.OpenRoundKeepsStart | service/fact_repository.hpp:265-277 | while any round is open, however rounds overlap, the published state is the one the outermost round began with |
| FactSpec.RoundPublishesAtEnd | service/fact_repository.hpp:228-277 | for every interleaving between the outermost begin and its end readers get the document, revision and time of the begin, and after the last end the live ones |
| FactSpec.RoundsCounted | service/fact_repository.hpp:265-277 | over every history the number of open rounds is that of begins not yet ended, an end without a begin counting for nothing |
| FactSpec.CollectedKept | service/fact_repository.hpp:360-365 | over every history the collection time is the last one marked |
| FactSpec.ReadersSee | service/fact_repository.hpp:228-277 | after any history with no round open readers get the document of the stored sets, the number of changes and the last collection time marked |
| FactSpec.ReorderedUnchanged | service/fact_repository.hpp:96-126 | offering a set again in another field order is unchanged and alters nothing |
| FactRepository.BuildDocument | service/fact_repository.hpp:521-531 | assembling the sets in any order gives the document |
| FactRepository.FreezeLocked | service/fact_repository.hpp:483-495 | freezing at the first change keeps what an eager copy at the round's begin would hold |
| FactRepository.EraseLocked | service/fact_repository.hpp:652-662 | one erase freezes first, removes the set from every map and keeps the counted size right |
| FactRepository.EraseAll | service/fact_repository.hpp:143-178 | erasing a set of names refines dropping them all at once, with one revision step |
| FactRepository.MaxElement | service/fact_repository.hpp:406-410 | the first entry of greatest encoded size in key order |
| FactRepository.Shrink | service/fact_repository.hpp:401-420 | the loop drops exactly the specified sets in the specified order |
| FactRepository.HashLocked | service/fact_repository.hpp:447-456 | the cached hash is the digest of the live document whenever a digest can be had |
| FactRepository.FrozenHashLocked | service/fact_repository.hpp:497-503 | during a round the hash is the digest of the frozen document |
| FactRepository.Walk | service/fact_repository.hpp:189-212 | the segment loop equals looking up the split path |
| FactRepository.Repository.Judge | service/fact_repository.hpp:91-126 | the outcome of set by its checks in order: name and validity, owner conflict, no change, budget |
| FactRepository.Repository.SetFacts | service/fact_repository.hpp:91-129 | the store refines the eager specification, and its result is the specified outcome |
| FactRepository.Repository.Remove | service/fact_repository.hpp:133-138 | drops that set and nothing else, changed if and only if it was there |
| FactRepository.Repository.RemoveOwnedBy | service/fact_repository.hpp:143-153 | drops exactly the sets and declarations of the plugin |
| FactRepository.Repository.RetainOnly | service/fact_repository.hpp:168-178 | drops exactly the plugin's sets it no longer produces |
| FactRepository.Repository.SetMaxSize | service/fact_repository.hpp:401-420 | a budget below the minimum is ignored; otherwise the specified sets go and their names are returned |
| FactRepository.Repository.BeginRound | service/fact_repository.hpp:265-269 | opens a round without copying, yet refines the eager copy |
| FactRepository.Repository.EndRound | service/fact_repository.hpp:271-277 | the last end publishes the live document |
| FactRepository.Repository.MarkCollected | service/fact_repository.hpp:360-365 | sets the live collection time, never the published one of an open round |
| FactRepository.Repository.MarkGathered | service/fact_repository.hpp:382-392 | stamps a stored set only |
| FactRepository.Repository.GetHash | service/fact_repository.hpp:228-235 | the digest of the published document, for every state the store can be in |
| FactRepository.Repository.GetSnapshot | service/fact_repository.hpp:248-252 | document, revision, time and hash of the last complete round, read in one step |
| FactRepository.Repository.GetAll | service/fact_repository.hpp:182-185 | the live document, valid and canonical |
| FactRepository.Repository.Get | service/fact_repository.hpp:189-212 | returns v if and only if the path is the dotted join of keys leading to v in that document |
| Glob.GlobImpl | service/permissions.hpp:216-237 | the pointer loop ends and computes the scan with its one remembered star |
| Glob.ScanSound | service/permissions.hpp:216-237 | from any loop state, success means the rest of the pattern matches from here or from the remembered star |
| Glob.LastStar | service/permissions.hpp:222-231 | forgetting an earlier star loses nothing: only the last one matters |
| Glob.ScanComplete | service/permissions.hpp:216-237 | from any loop state, on a text without stars, a match that is still possible is found |
| Glob.MatcherSound | service/permissions.hpp:216-237 | for every pattern and text, success means the declarative glob holds |
| Glob.MatcherDecides | service/permissions.hpp:216-237 | on a text without a star the matcher decides the glob |
| Glob.SpoilerFails | service/permissions.hpp:219-227 | for every star in a text there is a pattern that globs the text and is missed |
| Glob.DecidesIffStarFree | service/permissions.hpp:216-237 | the matcher decides the glob for every pattern if and only if the text has no star |
| Glob.OwnTextFails | service/permissions.hpp:219-227 | for every star in a pattern there is a text the pattern globs and the matcher misses: the pattern itself with more behind it |
| Glob.DecidedIffStarless | service/permissions.hpp:216-237 | the matcher decides the pattern on every text if and only if the pattern has no star |
| Permissions.GlobLiteral | service/permissions.hpp:208-212 | a pattern without wildcards matches exactly its own text up to NUL, ignoring case |
| Permissions.GlobMatchIff | service/permissions.hpp:208-237 | for a NUL-free pattern and a text without NUL and star, a match is the declarative glob ignoring case |
| Permissions.GlobPrefixStar | service/permissions.hpp:208-237 | a literal with a star behind it matches exactly when the text has that prefix and the rest is not a longer text starting with a star |
| Permissions.BareModulePattern | service/permissions.hpp:244-260 | `P` matches a subject of module m with any principal if and only if P and m are equal ignoring case |
| Permissions.TrailingColonPattern | service/permissions.hpp:244-260 | `P:` matches if and only if in addition the principal is empty or starts with NUL |
| Permissions.AnyPrincipalPattern | service/permissions.hpp:244-260 | `P:*` matches if and only if in addition the principal is non-empty and the star takes it |
| Permissions.BareCommandPattern | service/permissions.hpp:265-275 | a bare command pattern matches that command in every module and nothing else |
| Permissions.SubjectMatchesIff | service/permissions.hpp:244-260 | which subjects a pattern matches, wildcards included: those it globs, those that add a principal to it, and `m` for the pattern `m:` |
| Permissions.ObjectMatchesIff | service/permissions.hpp:265-275 | which objects a pattern matches: those it globs and, when it has no dot, those whose command after the last dot it globs |
| Permissions.GrantedIff | service/permissions.hpp:146-156 | rules grant if and only if one of them globs the subject and one of its entries globs the object |
| Permissions.LinesGrant | service/permissions.hpp:180-196 | reading configuration lines grants exactly what was granted before, and what some line with its trimmed comma entries grants |
| Permissions.BlanksAre | service/permissions.hpp:198-203 | space and tab, and nothing else, are cut |
| Permissions.RulesNeverRevoke | service/permissions.hpp:180-196 | adding any rules keeps every grant |
| Permissions.Trim | service/permissions.hpp:198-203 | cuts exactly the blanks at both ends |
| Permissions.ParseObjects | service/permissions.hpp:180-196 | the comma walk yields exactly the trimmed non-empty entries, in order |
| Permissions.Policy.AddRule | service/permissions.hpp:180-196 | appends one rule with those entries, or none when there are none |
| Permissions.Policy.ReplaceWith | service/permissions.hpp:119-128 | takes over the other policy's whole state |
| Permissions.Policy.IsAllowed | service/permissions.hpp:146-156 | under an enabled policy, allowed if and only if some rule matches subject and object; without NUL and star in those, if and only if some rule globs them |
| AccessPolicy.GlobToRegex | include/check/access_policy.hpp:101-133 | the appending loop yields the character-wise compilation |
| AccessPolicy.CompileParses | include/check/access_policy.hpp:101-133 | every compiled glob is a regular expression, parsed as intended: no character leaks through as an operator |
| AccessPolicy.MeaningMatches | include/check/access_policy.hpp:101-133 | for every glob and string the regex matches the whole string if and only if the glob does, with and without case |
| AccessPolicy.EnginesAgree | include/check/access_policy.hpp:340-345 | on texts without NUL and star this engine and the backtracking matcher agree |
| AccessPolicy.AllowedIff | include/check/access_policy.hpp:311-329 | in allowed mode a token that is not predefined passes if and only if it is NUL-free and some trimmed non-empty comma entry globs it |
| AccessPolicy.GateIs | include/check/access_policy.hpp:214-329 | after any history of configuring, the verdict on every token with its reason: predefined since the last reset gives the last value; otherwise the text of the last mode decides between open, the last allow list, predefined only, and closed by a mode that does not parse |
| AccessPolicy.RunConfigured | include/check/access_policy.hpp:214-268 | the configuration over every history: last mode text, last list, names added since the last reset |
| AccessPolicy.SpacesAre | include/check/access_policy.hpp:75-90 | the characters trimmed are the six of isspace |
| AccessPolicy.ResetNeverOpens | include/check/access_policy.hpp:268 | a reload's reset never lets through a token that was refused |
| AccessPolicy.CompileList | include/check/access_policy.hpp:229-251 | the allow list holds exactly the trimmed non-empty comma entries, each compiled to its meaning |
| AccessPolicy.Policy.SetMode | include/check/access_policy.hpp:214-224 | a mode that does not parse closes the gate to all but predefined names |
| AccessPolicy.Policy.SetAllowList | include/check/access_policy.hpp:229-251 | replaces the list by those entries |
| AccessPolicy.Policy.AddPredefined | include/check/access_policy.hpp:253-256 | adds or replaces one name |
| AccessPolicy.Policy.Reset | include/check/access_policy.hpp:268 | forgets the predefined names and nothing else |
| AccessPolicy.Policy.MatchesAllowList | include/check/access_policy.hpp:340-345 | true if and only if some entry, as the operator wrote it, globs the token |
| AccessPolicy.Policy.Resolve | include/check/access_policy.hpp:311-329 | the verdict on a token through the compiled patterns is the one by the entries as written, for every configuration, with its reason |
| RrdBuffer.MeanOfMeans | include/rrd_buffer.hpp:89-109 | the mean of equal block means is exactly the mean of all the samples |
| RrdBuffer.BlockPush | include/rrd_buffer.hpp:98-109 | a sample that completes a block adds that block's mean, any other adds nothing |
| RrdBuffer.TailMean | include/rrd_buffer.hpp:51-88 | the mean of the last blocks on a ring is the mean of the samples they cover |
| RrdBuffer.MinutesPush | include/rrd_buffer.hpp:98-109 | a full seconds ring is exactly the minute it completes |
| RrdBuffer.HoursPush | include/rrd_buffer.hpp:98-109 | a full minutes ring averages to the mean of its 3600 samples |
| RrdBuffer.WindowFits | include/rrd_buffer.hpp:51-88 | what is averaged is a block of the history, short of the window and behind the newest sample by less than one block |
| RrdBuffer.AnswerIs | include/rrd_buffer.hpp:51-88 | for every history and window below a day, the answer is the mean of a stretch of the history: as long as the window, or as what was sampled if less, short of that and behind the newest sample by less than one block |
| RrdBuffer.BlockSizeIs | include/rrd_buffer.hpp:51-88 | blocks are of 1, 60 and 3600 samples, changing at windows of 61 and of 3660 |
| RrdBuffer.AnswerLimits | include/rrd_buffer.hpp:51-88 | too long if and only if a day or more is asked for; 0 before the first sample and for a negative window |
| RrdBuffer.CalculateAvg | include/rrd_buffer.hpp:89-96 | the accumulating loop computes the mean |
| RrdBuffer.Buffer.constructor | include/rrd_buffer.hpp:39-43 | starts from an empty history |
| RrdBuffer.Buffer.Push | include/rrd_buffer.hpp:98-109 | rings and counters stay the function of the whole push history they stand for |
| RrdBuffer.Buffer.GetAverage | include/rrd_buffer.hpp:51-88 | for every history and window the rings give the exact mean of a stretch of the whole history, never an unsampled slot |
| Crc32.MakeTable | include/bytes/crc32.cpp:12-25 | every table entry is eight bit steps of its index |
| Crc32.TableStep | include/bytes/crc32.cpp:36-45 | one lookup does the work of eight bit steps, for every register and byte |
| Crc32.Calculate | include/bytes/crc32.cpp:36-45 | equals the bit-at-a-time CRC for every buffer |
| Crc32.FeedInjective | include/bytes/crc32.cpp:36-45 | feeding any bytes never merges two registers |
| Crc32.DetectsByte | include/bytes/crc32.cpp:36-45 | buffers that differ in one byte have equal CRCs if and only if that byte is equal |
| Crc32.FeedNumber | include/bytes/crc32.cpp:36-45 | any row of up to 32 bits is fed like one number added to the register |
| Crc32.DetectsBurst | include/bytes/crc32.cpp:36-45 | two buffers of one length whose differing bits lie within 32 consecutive bits, wherever these start, have equal CRCs if and only if they are equal |
| Crc32.Residue | include/bytes/crc32.cpp:12-45 | any buffer with its own CRC behind it has the CRC 0x2144DF1C, and no bytes have the CRC 0 |
| Base64.SextetLetter | include/bytes/base64.c:9-20 | reading back a letter of the alphabet gives its value |
| Base64.LetterSextet | include/bytes/base64.c:9-20 | every character with a value is the letter of that value |
| Base64.DecodeEncode | include/bytes/base64.c:22-156 | decoding the encoding of any non-empty bytes returns them |
| Base64.EncodeDecode | include/bytes/base64.c:22-156 | encoding the decode of a canonical text returns the text |
| Base64.EncodeCanonical | include/bytes/base64.c:22-68 | every encoding is canonical |
| Base64.CanonicalIff | include/bytes/base64.c:70-156 | the canonical texts are exactly those that survive decode and encode |
| Base64.DecodeSize | include/bytes/base64.c:70-156 | a successful decode yields exactly the size the query reports |
| Base64.DecodableIff | include/bytes/base64.c:70-156 | a text decodes if and only if its length is a positive multiple of 4 and every character has a value, or is padding in the last four |
| Base64.DecodedAt | include/bytes/base64.c:70-156 | each byte of a decode is a base-256 digit of the number its four characters write in base 64 |
| Base64.DecodedSizeFrom | include/bytes/base64.c:81-101 | the size by the place of the first padding character |
| Base64.EncodeInto | include/bytes/base64.c:22-68 | query and fill agree, nothing is written past the result, and a buffer that is too small writes nothing |
| Base64.DecodeInto | include/bytes/base64.c:70-156 | fills exactly the queried size on success, returns 0 on bad input, a small buffer or a null source, never writes past that size, and answers a null source with a bound |
| Base64.UpperBound | include/bytes/base64.c:81-101 | the bound answered for a null source is enough for every source of that length |
| Base64.EncodeString | include/bytes/base64.hpp:12-18 | the two-call protocol returns the encoding |
| Base64.DecodeString | include/bytes/base64.hpp:26-40 | decodes what is left after whitespace is skipped, empty when that is not valid |
| Base64.WrapPem | service/windows_ca_store.cpp:23-31 | breaks a text into CRLF lines of 64 |
| Base64.WrappedAt | service/windows_ca_store.cpp:23-31 | where each character of the text stands after wrapping |
| Base64.WrappedLength | service/windows_ca_store.cpp:23-31 | two characters more for every begun line of 64 |
| Base64.SpacedRoundTrip | include/bytes/base64.hpp:26-40 | an encoding broken up by any whitespace decodes to its bytes |
| Base64.SpaceIs | include/bytes/base64.hpp:26-40 | the characters skipped |
| Base64.WrappedRoundTrip | service/windows_ca_store.cpp:23-31 | in particular after wrapping |
| Redaction.RedactMessage | service/failed_check_store.hpp:262-277 | the in-place loop ends and equals redacting token by token |
| Redaction.RedactIdempotent | service/failed_check_store.hpp:262-277 | redacting twice is redacting once |
| Redaction.SecretGone | service/failed_check_store.hpp:262-277 | a sensitive key=value token anywhere becomes key=*** and the rest is redacted as if alone |
| Redaction.SecretsDoNotShow | service/failed_check_store.hpp:262-277 | the result is the same for any two values of a sensitive key |
| Redaction.SensitiveIff | service/failed_check_store.hpp:281-288 | a key is sensitive if and only if password or token stands somewhere in it, ignoring case |
| Redaction.ContainsIff | service/failed_check_store.hpp:281-288 | the search is for an occurrence at any place |
| Redaction.BoundaryIs | service/failed_check_store.hpp:278-280 | the characters that end a token |
| Redaction.HarmlessKept | service/failed_check_store.hpp:262-277 | a token that is no sensitive pair with a value stays as it is, and what is around it is redacted as if alone |
| Redaction.DashesIrrelevant | service/failed_check_store.hpp:281-288 | leading dashes never decide |
| FailedChecks.RedactArgumentList | service/failed_check_store.hpp:294-310 | the loop with its carried flag equals redacting argument by argument |
| FailedChecks.RedactArgumentsAgain | service/failed_check_store.hpp:294-310 | redacting arguments twice is redacting them once |
| FailedChecks.RedactedAt | service/failed_check_store.hpp:294-310 | every argument: a value behind a sensitive name is hidden, a sensitive pair keeps its key only, any other stays as it is |
| FailedChecks.SanitizeCleans | service/failed_check_store.hpp:317-338 | whatever comes in, the stored copy is within the caps on lines, performance data and arguments, holds no opaque data, and redaction would change nothing more in it |
| FailedChecks.SanitizeKeepsTheRest | service/failed_check_store.hpp:317-338 | a response within the caps and without credentials is stored as it came but for the opaque data, arguments only when handed over |
| FailedChecks.SanitizedIs | service/failed_check_store.hpp:317-338 | what is stored of any response: the first 100 lines with at most 100 values each, messages and arguments cut to 4096 and 1024 characters and redacted, in their order |
| FailedChecks.ClipIs | service/failed_check_store.hpp:342-346 | a long text keeps its beginning and ends in three dots within the length, a short one stays |
| FailedChecks.PreparedIs | service/failed_check_store.hpp:108-123 | what an entry takes over from the call, and that arguments are kept only when asked for |
| FailedChecks.ConfiguredIs | service/failed_check_store.hpp:79-91 | which statuses are recorded after configuring, how the cap is clamped, and that exactly the newest entries within it are kept, the others counted |
| FailedChecks.DefaultsAre | service/failed_check_store.hpp:65-73 | a new store records warning, critical and unknown, 50 entries, without arguments |
| FailedChecks.StepKeepsInv | service/failed_check_store.hpp:79-134 | configure, either half of record and clear keep: indices without a gap up to last_index, the cap, an empty store when disabled, only redacted entries, issued = stored + dropped + cleared |
| FailedChecks.RunKeepsInv | service/failed_check_store.hpp:79-206 | the same over every interleaving of any number of threads |
| FailedChecks.PollSeesExactlyTheNew | service/failed_check_store.hpp:170-199 | over any run, listing past the last_index a poller saw gives every stored entry that was not there then and none that was |
| FailedChecks.StoredIffEnabledAtCommit | service/failed_check_store.hpp:108-134 | over any run of other threads between its halves, what a record prepared at its first half is stored last and under the next index if and only if the last configuration in that run, or the one before it, leaves the store enabled; otherwise nothing changes |
| FailedChecks.RecordUnderInterference | service/failed_check_store.hpp:108-134 | one record under any interference stores its entry if and only if its status was recorded when it began and the store is enabled when it commits |
| FailedChecks.MessageUnderInterference | service/failed_check_store.hpp:146-162 | with any operations of other threads before and between the halves of each record, every answer of a message is stored, with the arguments of its paired request, if and only if its status was recorded when it was looked at and the store is enabled when it commits |
| FailedChecks.OutlivesTheSwitchOff | service/failed_check_store.hpp:108-134 | an entry prepared before the store was switched off and on again is kept |
| FailedChecks.ListedAt | service/failed_check_store.hpp:170-179 | the listing is the tail past since, turned round |
| FailedChecks.ListedIs | service/failed_check_store.hpp:170-179 | a listing is the newest entries past since, newest first, as many as there are up to the limit |
| FailedChecks.NewCountIs | service/failed_check_store.hpp:170-179 | the entries counted as new are exactly those with an index past since |
| FailedChecks.PairPayloads | service/failed_check_store.hpp:146-162 | the k-th answer to a command is paired with the k-th request for it, one beyond the requests with none |
| FailedChecks.PairedOnce | service/failed_check_store.hpp:146-162 | no request lends its arguments to two answers |
| FailedChecks.Store.constructor | service/failed_check_store.hpp:73 | starts empty with the default options |
| FailedChecks.Store.TrimLocked | service/failed_check_store.hpp:359-364 | drops the oldest entries down to the cap and counts them |
| FailedChecks.Store.Configure | service/failed_check_store.hpp:79-91 | clamps the options, empties a disabled store, trims an enabled one |
| FailedChecks.Store.RecordBegin | service/failed_check_store.hpp:108-123 | goes on if and only if the store is enabled and records that status, with a sanitized copy |
| FailedChecks.Store.RecordCommit | service/failed_check_store.hpp:125-134 | appends under the next index and trims, unless switched off meanwhile |
| FailedChecks.Store.Record | service/failed_check_store.hpp:108-134 | one record without interference, true exactly when an index was used |
| FailedChecks.Store.RecordMessage | service/failed_check_store.hpp:146-162 | every answer is recorded in order with the arguments of its paired request, and the count returned is the number of indices used |
| FailedChecks.Store.List | service/failed_check_store.hpp:170-179 | the reverse walk with its two early breaks equals filtering by index, newest first, cut to the limit |
| FailedChecks.Store.Clear | service/failed_check_store.hpp:183-188 | empties the log, keeps the index, returns the count |
| FailedChecks.Store.LastIndex | service/failed_check_store.hpp:196-199 | everything ever issued: stored, dropped and cleared together |
| ScriptSwap.StepKeepsInv | service/fleet_sync.cpp:853-876 | what every system call, exception, ignored error and death leaves true of both trees, the staged files, the hashes and the saved state |
| ScriptSwap.RunKeepsInv | service/fleet_sync.cpp:853-876 | the same over every sequence of applies, failures, deaths and boots |
| ScriptSwap.FailureLeaves | service/fleet_sync.cpp:853-876 | what each of the four ways to fail leaves: refused and rolled back, the tree, hashes, bundles and saved state of before; stuck, that tree whole in scripts.old; failing at the save, the new tree and the new fields |
| ScriptSwap.FinishedIsExact | service/fleet_sync.cpp:864-872 | a finished apply left exactly the staged files, none of the old ones, the state saved unless closing the file lost it, and no scripts.old unless an error was ignored |
| ScriptSwap.DeathDuringPromote | service/fleet_sync.cpp:358-373 | a death at any point of the promote or its rollback: with a tree set aside the boot restores exactly it with both hashes empty; the tree of before comes back if and only if there was one, or nothing had moved and no stale tree was left |
| ScriptSwap.DeathDuringSweep | service/fleet_sync.cpp:864 | a death while scripts.old is removed: the old tree comes back if and only if no entry of it was gone, otherwise a part of it |
| ScriptSwap.RestartAfterSweep | service/fleet_sync.cpp:864-872 | once the sweep is over a restart keeps the new tree if and only if nothing of scripts.old was left, or just that tree; otherwise the rest of the old tree replaces it |
| ScriptSwap.DeathDuringClearing | service/fleet_sync.cpp:854-855 | while a leftover scripts.old is removed, or after an apply that was refused: the live tree survives a restart if and only if nothing of scripts.old is left, or just that tree; the leftover comes back whole if and only if its removal has not begun |
| ScriptSwap.RetryAfterStuck | service/fleet_sync.cpp:854-863 | after a stuck rollback, the tree of before survives a death in the next apply's clearing if and only if that has not begun to remove it, or it was live all along |
| ScriptSwap.BootAfterFinish | service/fleet_sync.cpp:326-373 | the boot after a finished apply knows the applied state and keeps its tree if scripts.old is gone and the file was not lost; otherwise both hashes are empty |
| ScriptSwap.RerunBundles | service/fleet_sync.cpp:326-356 | a new life of the sync thread leaves the bundle list as it is if and only if nothing is saved, or no bundle is, or the file is garbled and there was none |
| ScriptSwap.RerunDoublesBundles | service/fleet_sync.cpp:962-987 | after a finished apply it lists every bundle twice |
| ScriptSwap.RecoveryRestartable | service/fleet_sync.cpp:358-373 | recovery cut short by any deaths and with any errors it ignores never loses the tree it is to restore, and without such an error ends with it live |
| ScriptSwap.BootForcesResync | service/fleet_sync.cpp:326-373 | a boot ends with both hashes empty if and only if it found scripts.old itself or none were saved |
| ScriptSwap.SecondBootRemembers | service/fleet_sync.cpp:370-372 | one more restart brings the saved hashes back |
| ScriptSwap.HistoryKeepsCurrent | service/fleet_sync.cpp:853-872 | over every history without a death at a dangerous spot, a removal that stops half way or a tree not moved back, the live tree between applies is exactly that of the last apply that landed, or the one it started with, and there is no scripts.old |
| ScriptSwap.SweepDeathLosesAFile | service/fleet_sync.cpp:864 | a run from a clean start after which a script is gone |
| ScriptSwap.FirstPromoteDeathLeavesAPart | service/fleet_sync.cpp:147-156 | a run from an empty host that ends with one of two staged scripts |
| ScriptSwap.FinishedApplyUndone | service/fleet_sync.cpp:864-872 | a run in which a finished apply is undone by the next restart |
| ScriptSwap.FailedSaveIsLive | service/fleet_sync.cpp:867-876 | a run that fails at the save with the new tree live, the new fields assigned and the old state on disk |
| ScriptSwap.RetryAfterStuckLosesTheTree | service/fleet_sync.cpp:854-863 | a failed rollback followed by another apply, after which the tree of before is nowhere |
| ScriptSwap.BothTreesLost | service/fleet_sync.cpp:854-865 | a run in which a finished apply and the tree before it are both lost to a death in the next apply |
| ScriptSwap.FinishedButNotSaved | service/fleet_sync.cpp:125-131 | a run that finishes with applied-state.json lost at its close |
| ScriptSwap.Agent.RemoveAll | service/fleet_sync.cpp:854 | taking leaves off ends and goes on with the next statement, changing only that tree, which is gone unless an error stopped it |
| ScriptSwap.Agent.CreateDirectories | service/fleet_sync.cpp:153 | makes every missing parent and nothing else, and fails exactly when a file stands in for one of them |
| ScriptSwap.Agent.PromoteTree | service/fleet_sync.cpp:147-156 | in any listing order and with a failure at any entry: true only when no staged file is left, and always true for a sound tree when no entry fails |
| ScriptSwap.Agent.MoveAside | service/fleet_sync.cpp:854-855 | clears scripts.old and moves the live tree there, or refuses, exactly when the move fails; when the clearing goes through, scripts.old is the live tree of before or gone |
| ScriptSwap.Agent.RollBack | service/fleet_sync.cpp:858-863 | ends rolled back or stuck, stuck exactly when there is a tree to put back and it cannot be |
| ScriptSwap.Agent.FinishUp | service/fleet_sync.cpp:864-872 | finished exactly when the file can be opened and written, whatever the removals ignore, with the save lost exactly when its close fails |
| ScriptSwap.Agent.Swap | service/fleet_sync.cpp:853-876 | true means exactly the staged files are live and the state is saved unless its close failed; false leaves hashes, bundles and saved state as they were, and a tree that was there live or whole in scripts.old, unless the failure came at the save, when the new tree and fields stand; with removals going through, the outcome is the one the faults determine |
| ScriptSwap.Agent.Recover | service/fleet_sync.cpp:1042-1043 | a restart ends with scripts.old restored if there was one, otherwise with the tree as it is, and never loses it to an ignored error |
| Commands.StepKeepsInv | service/commands.hpp:63-206 | with plugins under their own id every operation keeps: the owner a description names holds the command or alias |
| Text.LowerCharIs | service/commands.hpp:313 | lower case maps A-Z to a-z in order and nothing else |
| Commands.RunKeepsInv | service/commands.hpp:63-206 | the same over every history |
| Commands.UnloadLeavesNothing | service/commands.hpp:99-142 | after any such history, removing a plugin leaves no command, alias, description or plugin entry of it |
| Commands.UnloadIff | service/commands.hpp:99-142 | in any registry, exactly when removal leaves nothing behind |
| Commands.UnloadKeepsOthers | service/commands.hpp:99-142 | a name that did not resolve to the removed plugin resolves as before, one that did falls back to another plugin's alias or to nothing |
| Commands.RegisterOwnedIff | service/commands.hpp:144-164 | registering keeps each description with its holder if and only if the plugin is known under the id it reports or that id already holds the alias |
| Commands.ForeignIdLeavesADescription | service/commands.hpp:75-142 | a concrete history that leaves a description and a plugin entry behind |
| Commands.DescribedByAnswerer | service/commands.hpp:218-296 | a described name always resolves, and to the owner it names unless another plugin holds a command over its alias |
| Commands.RegistrationLasts | service/commands.hpp:99-206 | a registration holds under any spelling, with its description, through every run in which the name is not taken over or given up: former holders that unregister it or are unloaded do not disturb it |
| Commands.RegisteredAnswers | service/commands.hpp:144-206 | through every such run the name in any spelling answers with that plugin and that description |
| Commands.RegisterIs | service/commands.hpp:144-164 | what every name resolves to and is described as after a registration |
| Commands.AliasIs | service/commands.hpp:192-206 | the same for an alias, which a command of that name goes before |
| Commands.UnregisterIs | service/commands.hpp:165-191 | after its holder gives a command up the name answers by its alias or not at all and loses its description unless that is another plugin's; every other name is as before |
| Commands.AddIs | service/commands.hpp:63-85 | adding a plugin changes no answer |
| Commands.Commands.AddPlugin | service/commands.hpp:63-85 | enters the plugin under the id, ignoring null and plugins without a handler |
| Commands.Commands.RemoveAll | service/commands.hpp:87-97 | empties the registry |
| Commands.Commands.EraseHeld | service/commands.hpp:105-119 | the erasing walk removes exactly the plugin's entries and those of their descriptions still its own |
| Commands.Commands.RemovePlugin | service/commands.hpp:99-142 | both walks and the plugin entry, as one step of the specification |
| Commands.Commands.RegisterCommand | service/commands.hpp:144-164 | takes the lower-cased name over, or fails and changes nothing for an unknown plugin |
| Commands.Commands.UnregisterCommand | service/commands.hpp:165-191 | removes the command only from its holder, and the description only while it is its own |
| Commands.Commands.RegisterAlias | service/commands.hpp:192-206 | the same for an alias |
| Commands.Commands.Describe | service/commands.hpp:218-232 | the stored information in any spelling of the name, or a stand-in that says the command was not found |
| Commands.Commands.Get | service/commands.hpp:284-296 | commands first, then aliases, ignoring case |
| PathManager.LayersOverride | service/path_manager.cpp:251-258 | resolving a token is a lookup in the defaults overlaid by boot.ini overlaid by the command line |
| PathManager.ExpandPath | service/path_manager.cpp:266-304 | expansion ends for every map, cyclic ones included, and computes the specified result |
| PathManager.ExpandAll | service/path_manager.cpp:287-294 | the accumulating loop stops at the first unknown token and otherwise joins what the entries stand for |
| PathManager.StandForThemselves | service/path_manager.cpp:278-283 | the empty text and none are their own expansion under every map |
| PathManager.SubstitutionUnique | service/path_manager.cpp:286-294 | full substitution, defined without any depth, is unique |
| PathManager.SubstitutionExists | service/path_manager.cpp:286-294 | it exists when dependencies are bounded and no reachable token is unknown |
| PathManager.ExpandIsIdealIff | service/path_manager.cpp:266-304 | where full substitution exists, expansion returns it if and only if no text lies more than 32 tokens deep |
| PathManager.FailsIff | service/path_manager.cpp:266-304 | for every map, expansion fails if and only if some chain of at most 33 tokens ends at an unknown one |
| PathManager.ExpansionLaw | service/path_manager.cpp:266-304 | up to dependency height 32: fails exactly when a reachable token is unknown, otherwise the one full substitution |
| PathManager.CycleExpandsToNothing | service/path_manager.cpp:267-276 | a token that stands for itself expands to the empty text |
| PathManager.CallsBound | service/path_manager.cpp:266-294 | with texts of at most w entries an expansion makes no more calls than a full tree of 33 levels with w branches has nodes |
| PathManager.DoubledCycleCost | service/path_manager.cpp:266-294 | a token that stands for itself twice reaches that bound: 2^34 - 1 calls for the empty text |

## Left out

- FactRepository.Repository.SetFacts: the error texts and the errors kept per set are not modelled; the outcome is.
- FactRepository.HashLocked: SHA-256 is any digest function, and whether a digest can be had is a parameter of the call.
- RrdBuffer.Buffer.Push: samples are reals, so floating-point rounding is not modelled.
- FailedChecks.Store.RecordMessage: states the effect when no other thread comes in between; `FailedChecks.MessageUnderInterference` is the statement for any interference.
- ScriptSwap.Agent.MoveAside: a query whether a tree exists is taken to answer truly.
- ScriptSwap.Agent.Swap: the rename of fleet.ini before the swap, and staging itself, are not part of the model.
- PathManager.LayersOverride: the defaults are one map; `${nrpe-dh}`, which probes the disk, and folders asked of the operating system are entries of it.
- Commands.Commands.Get: locks are taken to be acquired, so the time-outs and what they return are not modelled.
- Lists of statuses as text, and formatting them, would only add small case analyses.
- Validating path overrides, rooting a path under a default directory, and switching the layout.
- Listing commands, aliases and plugins.
- Networking, TLS, enrolment, certificate renewal, bundle download, signature checks and configuration merging of the fleet client.
- Protobuf encoding, the JSON renderer, and regular expressions beyond the fragment a compiled glob uses.
- Tags, sampling state, NRPE mode, WQL queries, the installer, the command-line parser, settings, and the service and web layers.
