# Aegis_Router: the authorized action is the action that executes, at most once

This project models the path of Aegis_Router that carries its central claim, and proves the claim
of the model: what is sent upstream is what was authorized, it is sent at most once, and nothing
else reaches the tool.

## What is modelled

**The canonicalizer** (`Utf8`, `Numbers`, `Strings`, `Json`, `Syntax`, `Canonical`, `Codec`, `CanonicalAction`).
Text is a sequence of Unicode scalar values with an exact relation to UTF-8 bytes.  Numbers are digit
strings whose meaning is a rational defined without reference to normalization; values are trees with
objects as maps; the printer sorts keys and the reader refuses repeated keys, lossy strings and deep
nesting.  `Syntax` is the grammar alone, against which the reader and the encoding scan are both exact.
The printer is injective on meaning, so the digest binds an action as far as the hash does.
The decoder, the writer, the encoding scan and the digit loop are also given in place, each equal to
the function that carries the properties.

**The permit protocol** (`Permits`, `StoreRuns`, `ExecutionProof`, `Issuer`, `Verifier`, `Prepared`,
`Protocol`, `ProtocolSafety`, `Guarantees`).  Classes hold the stores as the program does and are
proved equal to step functions.  `Protocol` interleaves any number of issuing and verifying threads,
authority changes, revocations, key registrations and arbitrary clock readings, one step for each time
a mutex is held.  Tokens and proofs are arbitrary values: the binding needs no unforgeability, because
inspection compares a token's claims with the registered ones.  The issuing and the executing side hold
registries of their own, and what a profile does is arbitrary.

**Dispatch** (`McpEnvelope`, `Proxy`, `Guarantees`).  A dispatch is one recorded event after a verified
consumption, with the tool of the body, the prepared route and the prepared arguments; `Proxy` also gives
the body that leaves, as a tree, and what an upstream reads in it.

**The side cores.**  `AuditStore`, `AuditVerdict` and `Observer` (the window against its log, the verdict of
every interleaving of audit updates, and runtime events against a permit's envelope), `Base64`, `Token`,
`TokenRoundTrip`, `TokenSize` and `TokenCheck` (the compact token, its 64 KiB bound, and exactly which tokens are
accepted), `Detection` (the session window, its ancestors and its signals).

Each guard has a law that writes out when it passes (the names ending in `Exact`, `Exactly` or `ExactlyWhen`), in terms
of the inputs and with every constant in figures; the step functions and the methods are proved to meet it.

## Modelling choices

- SHA-256 with hexadecimal encoding is an arbitrary function.  Where a result needs injectivity, it is a
  hypothesis on the two inputs compared (`Prepared.Separates`, `Prepared.SeparatesPrepared`).
- Ed25519 is an arbitrary pair of functions for which what was signed verifies (`Token.Correct`); inside
  the protocol a token is its claims together with the key that signed them.
- Times are integers counting nanoseconds; Unix seconds are the floor.  Lifetimes are nanoseconds, too.
- An interleaving is a sequence of steps.  Histories (operations, nonce attempts, issuances, dispatches)
  are kept beside the state so that results about runs of one store carry over to runs of the whole.
- Distinct request ids, which the program does not enforce, are a hypothesis where a result needs them:
  a function naming the one permit of each request, in the starting log too, or freshness of each appended id.
- Parsing a URL is an arbitrary function, as is the folding of member names.

## Results that say where a promise ends

- Canonicalization is idempotent exactly when the canonical text still fits 1 MiB
  (`Canonical.CanonicalizeIdempotent`), and there is a text for which it does not: 200,000 quoted `<` are
  accepted and printed as 1,200,002 bytes (`Canonical.CanonicalTextCanOutgrowLimit`).
- The nonce window tolerates a clock reading less than five seconds behind; at five seconds a proof
  passes twice (`ExecutionProof.ReplayWhenClockFallsFiveSeconds`).
- The live audit store agrees with its log exactly as long as no mutation that changes the request id brings
  an older record to light or hides behind a newer one (`AuditStore.LiveRefinesLog`).  One that does breaks
  the agreement (`AuditStore.ChangedIDBreaksAgreement`); no mutation of the router changes the id
  (`AuditVerdict.RouterRefinesLog`).
- Case-insensitive member matching agrees with exact reading because of the exact-name check before it;
  without the check it need not (`McpEnvelope.FoldingCanShadow`).

## Model

| member | source | states |
|---|---|---|
| Guarantees.SentIsWhatWasAuthorized | internal/adapters/mcp/proxy.go:203-247 | in every interleaving and for any two registries, each upstream call's action has the eleven scalar fields of the action its permit was issued for, and, unless the hash confuses the inputs compared, its tool, route and argument value |
| Guarantees.EachDispatchConsumesItsPermit | internal/verifier/verifier.go:279-306 | each dispatch has a consumption and a permit of its own, and its call met every check; the permit was consumed inside its lifetime while its authority was enabled at its epoch, and is consumed for good |
| Guarantees.AuthorityHeldThroughIssuance | internal/router/router.go:155-168 | from the capture before policy evaluation to registration, an issued permit's authority was enabled at the permit's epoch in every state of the store |
| Guarantees.OnlyCheckedCallsReachNonces | internal/verifier/verifier.go:138-197 | the nonce store changes only when a call arrives whose token is authentic and names a recorded permit, whose proof is fresh and by the key named, and whose action is the one bound, each condition written out |
| Guarantees.OnlyCheckedCallsConsume | internal/verifier/verifier.go:130-136 | an execution permit becomes consumed only for a call that presented its very claims, met every one of these conditions and spent its nonce |
| Guarantees.RejectedCallLeavesExpiryMarks | internal/verifier/verifier.go:308-370 | a call rejected before the nonce step changes nothing in either store except expiry marks |
| Guarantees.NoProofSpentTwice | internal/verifier/verifier.go:189-193 | no proof passes the nonce step twice in any interleaving while the clock is steady |
| Guarantees.UninterruptedCall | internal/verifier/verifier.go:130-136 | the four steps of a call, uninterrupted, leave exactly the stores of the verifier's entry point and authorize exactly when it reports a verified consumption |
| Guarantees.AuthorizedCallSends | internal/adapters/mcp/proxy.go:203-247 | an authorized call is dispatched once, with the tool, the route and the arguments prepared |
| Guarantees.UninterruptedSimulation | internal/verifier/verifier.go:266-277 | the two steps of a simulation are the verifier's simulation entry point |
| Guarantees.SimulationAdmitted | internal/verifier/verifier.go:266-277 | a simulation gets past its inspection if and only if its token is an authentic simulation permit, outstanding and in its lifetime, and the action is the one bound |
| Guarantees.StoreMayChange | internal/permit/store.go:96-179 | any operation of the store but registration and consumption may come between the steps of a thread |
| Guarantees.Reachable | internal/router/router.go:140-276 | the invariant of the protocol holds in every world any interleaving reaches |
| Guarantees.DispatchWasIssued | internal/router/router.go:209-243 | a permit that authorized a dispatch was issued, for a prepared action with the same digest and scalar fields |
| ProtocolSafety.StepKeeps | internal/router/router.go:140-276 | every step of every thread keeps the invariant |
| ProtocolSafety.NewIssuance | internal/router/router.go:1106-1146 | a registration records a permit whose claims carry the prepared action's fields and digest and the epoch captured before policy |
| Guarantees.ConsumedWithinLifetime | internal/verifier/verifier.go:279-306 | in every world any interleaving reaches, each consumed permit, execution or simulation, was consumed no earlier than its issue and before its expiry, for every clock reading |
| Guarantees.ConsumedAtLaterReading | internal/verifier/verifier.go:279-306 | in every interleaving a permit of either class is consumed at the larger of the reading its thread inspected it at and the reading of the consuming step, and the latter is still before the expiry |
| Guarantees.UninterruptedIssue | internal/router/router.go:1106-1146 | a capture and its issue, uninterrupted, register a permit if and only if the authority is enabled, the proposal prepared, a second of lifetime allowed, the names in order and the id unused; the record says, field by field, what was prepared and asked for |
| Guarantees.SimulationIsIssued | internal/router/router.go:1106-1146 | a simulation gets its permit, for the action without execution binding, no executor and no epoch, if and only if it may |
| Guarantees.ChecksAreExact | internal/verifier/verifier.go:138-197 | what the steps before the nonce checked is exactly the list of conditions that the two results above write out |
| Guarantees.EveryPermitLivesWithin | internal/router/router.go:1106-1145 | in every world any interleaving reaches, each permit lives 1 to 900 whole seconds, within the configured lifetime and the limits it was issued under, and outlives the delegated authority by at most the time its authorization took |
| ProtocolSafety.ChecksKept | internal/executionproof/registry.go:20-37 | keys are only added and claims never change, so checks once passed stay passed |
| Protocol.KeyRegistersExactly | internal/executionproof/registry.go:20-37 | a workload key is registered if and only if its id is valid, it has 32 bytes and the id is not bound to another key |
| Protocol.StepExtends | internal/permit/store.go:64-191 | every step extends the histories of both stores and takes nothing back |
| Verifier.CallVerifiedExactlyWhen | internal/verifier/verifier.go:130-197 | a whole call authorizes if and only if the token is authentic, its permit outstanding with the same claims, the first reading inside the lifetime and the second before the expiry, the proof by the key named and issued from 30 seconds before to 5 seconds after the reading, the action bound, no obligation demanded, no unexpired entry for the nonce, and the authority enabled at the permit's epoch |
| Verifier.CallConsumesAtLaterReading | internal/verifier/verifier.go:130-197 | a call that authorizes consumes its own permit and no other, at the larger of the two readings, which the result reports, and adds its nonce for 35 seconds from the proof's issue while dropping what has expired |
| Verifier.ExpiredMeanwhile | internal/verifier/verifier.go:279-306 | a permit that expires between the two readings is answered as expired and recorded so |
| Verifier.ConsumptionExact | internal/verifier/verifier.go:279-306 | consuming an inspected permit: expired at the second reading, revoked without its authority, consumed at the larger reading otherwise |
| Verifier.SimulationVerifiedExactlyWhen | internal/verifier/verifier.go:266-277 | a simulation authorizes if and only if its token is an authentic simulation permit, outstanding and in its lifetime at both readings, the action bound and the authority in force; then the record and the result carry the larger reading and nothing else changes |
| Verifier.NonceStepExact | internal/executionproof/registry.go:61-78 | a fresh proof passes if and only if no unexpired entry has its key and nonce, and then its own entry is added and the expired ones are gone |
| Verifier.InspectExact | internal/verifier/verifier.go:308-370 | inspection succeeds if and only if the token is authentic and names an outstanding permit with these claims inside its lifetime |
| Verifier.ChecksExact | internal/verifier/verifier.go:143-188 | the local checks pass if and only if the proof holds, the action is the one bound and no obligation is demanded; a proof holds from 5 seconds before its issue to 30 seconds after it |
| Verifier.ActionBindingExact | internal/verifier/verifier.go:217-262 | an action is bound if and only if it is valid, agrees with the claims in eleven fields and has the signed digest |
| Verifier.ComputeDigest | internal/canonicalaction/action.go:129-175 | computes the digest through the in-place writer |
| Verifier.ActionBindingOutcome | internal/verifier/verifier.go:217-262 | the first disagreeing field in the source's order names the outcome |
| Verifier.Verifier.InspectPermit | internal/verifier/verifier.go:308-370 | the store and the result after inspection, field by field |
| Verifier.Verifier.CheckProof | internal/verifier/verifier.go:143-188 | the outcome of the checks between inspection and the nonce step |
| Verifier.Verifier.VerifyExecutionProof | internal/verifier/verifier.go:138-197 | both stores and the result after the proof step |
| Verifier.Verifier.ConsumeChecked | internal/verifier/verifier.go:279-306 | the store and the result after consumption; on success the record and the result carry the larger of the two readings |
| Verifier.Verifier.VerifyExecutionAndConsume | internal/verifier/verifier.go:130-136 | both stores and the result of the whole call |
| Verifier.Verifier.CheckExecution | internal/verifier/verifier.go:203-215 | the diagnostic check never reports a verified result and only marks expiry |
| Verifier.Verifier.VerifySimulationAndConsume | internal/verifier/verifier.go:266-277 | the store and the result of the simulation path, which verifies and consumes simulation permits only |
| Permits.MemoryStore.Register | internal/permit/store.go:74-94 | the new store and the refusal, in the source's order of checks |
| Permits.RegisterExact | internal/permit/store.go:74-94 | a permit is registered if and only if its claims are valid, its id is new and its authority is enabled at its epoch; which of the three failed is what the refusal says |
| Permits.ReadExact | internal/permit/store.go:96-124 | reading marks as expired what is outstanding and has reached its expiry at a time that is set, and changes nothing else |
| Permits.ConsumeExact | internal/permit/store.go:126-160 | a permit is consumed if and only if it is outstanding at the reading and its authority is in force; otherwise its expiry or its revocation is recorded, and any other state stays |
| Permits.RevokeExact | internal/permit/store.go:162-179 | a permit is revoked if and only if it is outstanding at the reading |
| Permits.ValidateClaims | internal/permit/claims.go:87-161 | the checks of claims in order, with the table of required fields, accept exactly the valid claims |
| Permits.ValidateKeyID | internal/keyprovider/keyprovider.go:115-127 | the character loop accepts exactly the key ids |
| Permits.MemoryStore.Get | internal/permit/store.go:96-106 | returns the record, marking expiry |
| Permits.MemoryStore.List | internal/permit/store.go:108-124 | marks expiry on every record and returns each of them once, the newest issue second first and then by permit id |
| Permits.OneListing | internal/permit/store.go:108-124 | records filed under their own permit ids have exactly one listing in that order |
| Permits.MemoryStore.Consume | internal/permit/store.go:126-160 | the outcome and the new store for every lifecycle state |
| Permits.MemoryStore.Revoke | internal/permit/store.go:162-179 | revokes an outstanding permit, marking expiry first |
| Permits.MemoryStore.ReadAuthority | internal/permit/authority.go:26-37 | an untouched authority is enabled at epoch 1, any other one is as it was left; StoreRuns.AuthorityIsItsTransitions says how |
| StoreRuns.AuthorityIsItsTransitions | internal/permit/authority.go:26-73 | in every interleaving an authority's epoch counts its accepted transitions from 1, and it is enabled as the last of them said, or because there was none |
| Permits.MemoryStore.SetAuthorityEnabled | internal/permit/authority.go:44-73 | accepted, whichever way it goes, if and only if the three names are plain, the time is set and the epoch is not the last; then the epoch is one more, the flag is as asked, and exactly the outstanding execution permits of the authority are revoked |
| Permits.TransitionExact | internal/permit/authority.go:44-73 | each name is non-empty, within 512 bytes and free of control characters, the time is not the zero time and the epoch is below 2^64-1: then, for both flags, the new epoch, the permits ended and everything else unchanged; otherwise a refusal and an unchanged store |
| StoreRuns.RunInv | internal/permit/authority.go:39-73 | in every reachable store each outstanding bound permit has its authority enabled at its own epoch, and time stamps match states |
| StoreRuns.ConsumeSucceedsOnce | internal/permit/store.go:126-160 | at most one Consume of a permit ever succeeds |
| StoreRuns.TerminalForever | internal/permit/store.go:126-191 | claims never change, and consumed, expired and revoked records never change again |
| StoreRuns.ConsumeInTime | internal/permit/store.go:136-144 | the authority mismatch branch of Consume is never taken, and a consumption at a non-zero reading is before expiry |
| StoreRuns.AuthorityStableDuringIssue | internal/permit/store.go:86-91 | registration at a captured epoch means the authority was stable from capture to registration |
| StoreRuns.EpochsNeverReused | internal/permit/authority.go:55-64 | an epoch that was left is never current again |
| StoreRuns.RevocationIsFinal | internal/permit/authority.go:65-72 | a transition ends every outstanding permit of its authority and re-enabling revives none |
| ExecutionProof.ProofUsedOnce | internal/executionproof/registry.go:61-78 | no proof passes twice while every reading is less than five seconds behind every earlier one |
| ExecutionProof.RefusedExactlyOnRepeat | internal/executionproof/registry.go:61-78 | a fresh proof is refused if and only if an earlier attempt with its key and nonce passed and no clock reading since, its own included, has reached the expiry of that attempt's entry |
| ExecutionProof.ReplayWhenClockFallsFiveSeconds | internal/executionproof/registry.go:61-78 | the five seconds are exact: a run with a reading five seconds behind lets a proof pass twice |
| ExecutionProof.JoinInjective | internal/executionproof/registry.go:61-78 | the NUL-joined key determines key id and nonce |
| ExecutionProof.NonceStore.UseNonce | internal/executionproof/registry.go:61-78 | the map after eviction and insertion, and the answer |
| ExecutionProof.UseExact | internal/executionproof/registry.go:61-78 | a use passes if and only if key and nonce are given, the proof has not expired and no unexpired entry has both; what is kept and what is dropped |
| ExecutionProof.ValidateProof | internal/executionproof/proof.go:53-73 | the checks of a proof's claims accept exactly the valid ones |
| ExecutionProof.CheckThumbprint | internal/executionproof/proof.go:208-218 | the digit loop accepts exactly a lower-case SHA-256 digest with its prefix |
| ExecutionProof.Registry.Register | internal/executionproof/registry.go:20-37 | a key id once bound is never bound to another key |
| Prepared.PreparedIsBound | internal/semanticaction/prepared.go:35-71 | whatever a profile does, the prepared action keeps the caller's scope, carries the dispatched arguments and the binding of its route, and can be digested |
| Prepared.PreparedKeepsScope | internal/semanticaction/prepared.go:44-52 | any registry keeps identity and scope and refuses an empty binding |
| Prepared.PrepareExactly | internal/semanticaction/prepared.go:35-71 | a proposal is prepared, to this very result, if and only if a profile resolves its tool, states its facts, keeps the seven fields of identity and scope and its own tool, id and route, has a binding, and both argument texts have the same canonical bytes |
| Prepared.BindingSeparates | internal/semanticaction/prepared.go:73-90 | equal bindings mean equal route and configuration when the hash separates the two documents |
| Prepared.PreparedAgree | internal/semanticaction/prepared.go:35-90 | equal digests mean the same tool, route and argument value across two registries |
| Prepared.PrepareExecution | internal/semanticaction/prepared.go:35-71 | computes the prepared execution, or the first failing check, comparing canonical bytes |
| CanonicalAction.CanonicalJSONInjective | internal/canonicalaction/action.go:129-165 | two actions have the same canonical bytes if and only if the eleven scalar fields agree and the arguments denote the same value |
| CanonicalAction.DigestBinds | internal/canonicalaction/action.go:167-175 | equal digests bind the action when the hash separates the two canonical forms |
| CanonicalAction.MissingArguments | internal/canonicalaction/action.go:134-137 | blank arguments count as the empty object |
| CanonicalAction.CanonicalJSONAccepts | internal/canonicalaction/action.go:129-175 | arguments are accepted if and only if their trimmed text is empty or acceptable; an action has a canonical form and a digest if and only if it is valid and its arguments are accepted |
| CanonicalAction.ValidateAction | internal/canonicalaction/action.go:61-99 | the checks of an action in order, with the table of required fields, accept exactly the valid actions |
| CanonicalAction.CheckText | internal/permit/claims.go:163-177 | the scan for control characters and the byte limit |
| CanonicalAction.ActionValueInjective | internal/canonicalaction/action.go:143-160 | the canonical object determines every field, and an absent binding counts as empty |
| Canonical.CanonicalizeInjective | internal/canonicalaction/action.go:179-189 | two accepted texts have one canonical text if and only if they denote the same value |
| Canonical.CanonicalizeIdempotent | internal/canonicalaction/action.go:179-189 | canonicalizing again gives the same text if and only if the text still fits 1 MiB |
| Canonical.CanonicalTextCanOutgrowLimit | internal/canonicalaction/action.go:184-200 | there is an accepted text whose canonical text is too large to be accepted |
| Canonical.CanonicalizeSpelled | internal/canonicalaction/action.go:179-216 | a text in any spelling, white space, escapes, member order and number notation included, is accepted if and only if it is syntactically valid with paired surrogates, distinct names, numbers whose exponents keep to a million, at most 64 containers around a value and at most 1 MiB; its canonical text depends only on the value it denotes, numbers as rationals and objects as maps |
| Canonical.CanonicalizeRendered | internal/canonicalaction/action.go:179-216 | every compact spelling of a value, in any key order and number notation, has the same canonical text |
| Canonical.CanonicalBytesIdempotent | internal/canonicalaction/action.go:179-189 | the same on bytes |
| Canonical.CanonicalBytesInjective | internal/canonicalaction/action.go:179-189 | the same on bytes |
| Canonical.CanonicalBytesExact | internal/canonicalaction/action.go:179-216 | bytes are canonicalized if and only if they are UTF-8 and their trimmed text is acceptable, to the bytes of the value that text denotes |
| Canonical.MeaningInjective | internal/canonicalaction/action.go:191-216 | parsed values are equal if and only if they denote the same thing, numbers as rationals and objects as maps |
| Canonical.ReadPrinted | internal/canonicalaction/action.go:282-346 | reading what the printer wrote gives back the value, whatever delimiter follows |
| Canonical.PrintInjective | internal/canonicalaction/action.go:399-454 | the printer is injective |
| Canonical.SortedUnique | internal/canonicalaction/action.go:425-431 | the sorted key order of an object is unique |
| Canonical.ParseIsExact | internal/canonicalaction/action.go:193-216 | exactly which texts are parsed, every limit written out, and that the value has the meaning of the text's tree, for every text |
| Canonical.DenoteKeepsMeaning | internal/canonicalaction/action.go:282-397 | normalizing keeps the meaning of every acceptable tree, numbers as rationals and objects as maps |
| Canonical.TrimSpaceExact | internal/canonicalaction/action.go:179-189 | trimming removes Unicode white space at both ends and nothing else |
| Canonical.ParseRendered | internal/canonicalaction/action.go:193-216 | a compact spelling, in any key order and number notation, parses to the value it spells if it fits the size limit |
| Canonical.ParsedWellFormed | internal/canonicalaction/action.go:193-216 | parsing yields normalized values within the depth limit and never substitutes a character |
| Json.ReadRendered | internal/canonicalaction/action.go:282-346 | a compact spelling, in any member order and number notation, reads back to its value |
| Syntax.ReaderIsExact | internal/canonicalaction/action.go:282-346 | on every text the reader accepts if and only if the grammar does, names are distinct, every number is acceptable and nesting is within the budget, and then returns what the text denotes |
| Syntax.ValidIsAcceptable | internal/canonicalaction/action.go:282-346 | a tree is valid if and only if it is no deeper than the budget, its numbers are acceptable and its names distinct |
| Syntax.ScanIsExact | internal/canonicalaction/action.go:218-267 | on every syntactically valid text, repeated names and numbers out of range included, the scan accepts if and only if no literal leaves a surrogate unpaired, and the literals it goes through are the grammar's, at the same positions |
| Codec.Decoder.ReadJSONValue | internal/canonicalaction/action.go:282-346 | the decoder that advances in place reads what the reader function reads |
| Codec.Decoder.ReadArray | internal/canonicalaction/action.go:282-346 | array elements in order up to the closing bracket |
| Codec.Decoder.ReadObject | internal/canonicalaction/action.go:282-346 | object members, refusing a repeated key |
| Codec.Decoder.ReadNumberToken | internal/canonicalaction/action.go:282-346 | a number token is normalized by the loop |
| Codec.WriteCanonicalJSON | internal/canonicalaction/action.go:399-454 | appends the canonical text to the buffer |
| Codec.WriteObject | internal/canonicalaction/action.go:421-449 | appends the members in sorted order |
| Codec.WriteArray | internal/canonicalaction/action.go:411-420 | appends the elements in order |
| Codec.SortKeys | internal/canonicalaction/action.go:422-426 | sorts the keys: ordered, and the same keys |
| Codec.ParseJSON | internal/canonicalaction/action.go:193-216 | parses in place what the parse function parses, with the same error |
| Codec.CanonicalizeBytes | internal/canonicalaction/action.go:179-189 | canonicalizes in place what the canonicalization function does |
| Utf8.DecodeEncode | internal/canonicalaction/action.go:221-224 | decoding encoded text gives back the text |
| Utf8.EncodeDecode | internal/canonicalaction/action.go:221-224 | valid bytes are exactly the encodings |
| Utf8.OrderAgrees | internal/canonicalaction/action.go:422-426 | sorting keys as bytes and by scalar value is the same order |
| Strings.ScanAgreesWithDecoder | internal/canonicalaction/action.go:218-267 | inside a literal the scan accepts if and only if the escapes form well-paired UTF-16 |
| Strings.ReadEscaped | internal/canonicalaction/action.go:409-414 | decoding an escaped string gives back the string without loss |
| Strings.EscapesExact | internal/canonicalaction/action.go:409-414 | which characters the encoder escapes, and how |
| Strings.SurrogatesExact | internal/canonicalaction/action.go:236-262 | the surrogate units are exactly the units that are no scalar values, and their pairs the scalar values beyond the first plane, each once |
| Strings.ValidateJSONStringEncoding | internal/canonicalaction/action.go:218-267 | the moving-index scan decides what the scan function decides |
| Strings.ValidateEscape | internal/canonicalaction/action.go:236-262 | one escape, including the second half of a pair |
| Strings.ReadUTF16Escape | internal/canonicalaction/action.go:269-280 | succeeds if and only if four hexadecimal digits follow, and the unit formatted again is those digits in lower case |
| Numbers.NormalizeJSONNumber | internal/canonicalaction/action.go:348-397 | the digit loop computes the normalization function: it accepts exactly the acceptable numbers and keeps their value |
| Numbers.NormalizeAccepts | internal/canonicalaction/action.go:348-397 | a text is accepted if and only if it spells a number literal whose written exponent, whose exponent less its fraction digits and whose number of fraction digits keep to one million, and that is zero or an integer without trailing zero times a power of ten within one million |
| Numbers.LiteralDecides | internal/canonicalaction/action.go:348-397 | the literal of a text is the only one that decides its acceptance |
| Numbers.NormalizeExact | internal/canonicalaction/action.go:348-397 | an accepted number and its output denote the same rational |
| Numbers.NormalizeUnique | internal/canonicalaction/action.go:348-397 | two accepted numbers give equal text if and only if their rationals are equal |
| Numbers.NormalizeFixedPoint | internal/canonicalaction/action.go:348-397 | the output is accepted again and is a fixed point |
| Numbers.NormalizeParts | internal/canonicalaction/action.go:348-397 | the output is zero or significant digits with an exponent within one million |
| Numbers.ExponentsInRange | internal/canonicalaction/action.go:353-391 | every exponent met on the way to an accepted result stays within one million |
| Numbers.ScanText | internal/canonicalaction/action.go:348-350 | the number grammar is unambiguous |
| TokenSize.SignedTokenVerifies | internal/permit/token.go:34-150 | verifying a signed token returns the same claims for every valid Claims, the header says version 2 if and only if there is a binding, and the token fits 64 KiB; TokenCheck.VerifiesExactly says which tokens are refused |
| TokenCheck.VerifiesExactly | internal/permit/token.go:65-124 | a token is accepted, with these claims, if and only if it is three dot-free parts within 64 KiB, the third the one spelling of a 64-byte signature that the scheme accepts over the first two, the payload says these claims and they are valid, and the header says EdDSA, the permit type, their key id, and version 2 exactly with a binding |
| TokenCheck.UnsignedIsRefused | internal/permit/token.go:79-87 | a token whose third part is no signature over the first two is refused as such, whatever the rest says |
| TokenCheck.SignsExactly | internal/permit/token.go:34-61 | signing refuses exactly a key of the wrong size, invalid claims and a key id that is not theirs |
| TokenCheck.KeyIDExactly | internal/permit/token.go:129-150 | the key id of a token is read, unauthenticated, if and only if its header is supported |
| TokenCheck.PartsExact | internal/permit/token.go:152-161 | splitting finds three parts if and only if the token is three non-empty dot-free texts joined by dots, within 64 KiB |
| TokenCheck.DocumentExact | internal/permit/token.go:163-177 | a part is read if and only if it encodes an acceptable JSON text, and then as the value that text denotes |
| TokenCheck.HeaderExact | internal/permit/token.go:22-27 | a header is decoded if and only if the document has no other members and each is of its type |
| TokenCheck.ClaimsExact | internal/permit/claims.go:55-81 | claims are decoded if and only if the document has no other members and each field is the member of its name, in range |
| TokenSize.TokenFits | internal/permit/token.go:152-161 | header, payload and signature together stay below the compact limit |
| TokenSize.ClaimsSize | internal/permit/claims.go:87-161 | the field limits bound the encoded claims by 47,633 bytes |
| TokenSize.EscapeSize | internal/permit/token.go:51-54 | JSON escaping grows text at most sixfold |
| TokenSize.PartsRoundTrip | internal/permit/token.go:152-161 | three base64url parts split back into exactly those parts |
| TokenRoundTrip.ClaimsReadBack | internal/permit/claims.go:55-81 | decoding encoded claims gives back every field, omitted or not |
| TokenRoundTrip.HeaderReadsBack | internal/permit/token.go:22-27 | decoding an encoded header gives back the header |
| TokenRoundTrip.IntegerReads | internal/permit/claims.go:74-79 | integers are written plainly and keep their value through normalization |
| Base64.RoundTrip | internal/permit/token.go:55-58 | base64url decoding inverts encoding |
| Base64.EncodeShape | internal/permit/token.go:55-58 | encoded text has four characters for every three bytes and uses the alphabet only |
| Base64.EncodeBits | internal/permit/token.go:55-58 | the text has the bits of the bytes, and zeros up to a whole character |
| Base64.DecodeExact | internal/permit/token.go:79-87 | a text without its line breaks decodes if and only if it is over the alphabet and leaves no character alone, to bytes with its bits |
| Base64.AlphabetExact | internal/permit/token.go:55-58 | the alphabet and the place each character stands for |
| Issuer.PermitLifetime | internal/router/router.go:1106-1145 | the claims built from a requested lifetime live 1 to 900 whole seconds, at most the configured number, 30 when there is none, and within every limit; Guarantees.EveryPermitLivesWithin says it of every recorded permit |
| Issuer.LongestAllowedLifetime | internal/router/router.go:1106-1127 | the lifetime is the longest in whole seconds that every limit allows, and issuance fails if and only if none is allowed |
| Issuer.ValidExactlyWhenIssuable | internal/permit/issuer.go:99-144 | no valid action is refused: claims about it are valid if and only if the ids, names, keys and clock that the caller adds are in order |
| Issuer.PermitIssuer.Issue | internal/permit/issuer.go:99-144 | the claims registered, or the refusal; on success every claim is the one asked for, the lifetime is 1 to 900 whole seconds, 30 by default, and the record is all that changes; on failure nothing does |
| AuditStore.LiveRefinesLog | internal/audit/store.go:34-119 | in every run, whatever its mutations do, the live store and a store reloaded from the log return the same record for every id the live one still holds, at every moment, if and only if no mutation brought an older record of its id to light or left a later record of the new id in front of it |
| AuditStore.ChangedIDBreaksAgreement | internal/audit/store.go:80-108 | a mutation that changes the request id can break that agreement |
| AuditStore.LiveIsSuffix | internal/audit/store.go:34-119 | in every run the live list is a suffix of the reloaded one at every moment if and only if no logged id was appended again and no mutation moved a record to another id, but for a record alone in its window |
| AuditStore.WindowLength | internal/audit/store.go:34-48 | whatever the operations do, the window grows by one for each append up to a hundred |
| AuditStore.ReloadedLength | internal/audit/store.go:150-182 | with distinct ids that mutations leave alone, the reloaded list holds one record more for each append |
| AuditStore.Store.constructor | internal/audit/store.go:150-182 | loading replays the log |
| AuditStore.Store.AppendRecord | internal/audit/store.go:34-48 | persists, appends and trims to one hundred |
| AuditStore.Store.UpdateRecord | internal/audit/store.go:53-75 | persists and overwrites the latest revision |
| AuditStore.Store.MutateRecord | internal/audit/store.go:80-108 | reads, changes, persists and overwrites the latest revision |
| AuditStore.Store.Get | internal/audit/store.go:110-119 | the latest revision of a request, or nothing |
| AuditStore.Store.Find | internal/audit/store.go:59-65 | the backward scan finds the last record with the id |
| AuditStore.Store.Recent | internal/audit/store.go:121-132 | the latest records, newest first |
| AuditVerdict.FailureIsSticky | internal/router/router.go:343-374 | a recorded failure outcome never returns to VERIFIED or empty, in any order of updates |
| AuditVerdict.ExecutedMeansConsumed | internal/router/router.go:659-760 | in every interleaving and on whatever log the router started, a record with the executed verdict, of a request that log does not already record as executed, records VERIFIED and names a consumed permit: live, on every log line and after reload |
| AuditVerdict.RouterKeepsIDs | internal/router/router.go:343-790 | every mutation the router makes leaves the request id alone |
| AuditVerdict.RouterRefinesLog | internal/router/router.go:343-790 | in every run of the router, on whatever log it started, the live audit store and a store reloaded from the log agree on every id the live one still holds |
| AuditVerdict.UpdateIsGood | internal/router/router.go:694-759 | only a completion that saw the permit of this request consumed writes the executed verdict |
| AuditVerdict.VerdictExact | internal/router/router.go:541-567 | which verdict reports which outcomes |
| AuditVerdict.VerificationExact | internal/router/router.go:343-374 | a verification is written over everything but a success over a failure, with its verdict; the permit's state is written in any case |
| AuditVerdict.CompletionExact | internal/router/router.go:694-759 | the verdict, the outcome and the states a completion writes: past the expiry, with a boundary outcome, over a settled verdict, and in each status |
| AuditVerdict.OtherUpdatesExact | internal/router/router.go:496-631 | what a revocation, a runtime event and a rejected event write |
| AuditVerdict.UninterruptedCompletion | internal/router/router.go:659-694 | a completion, uninterrupted, stops the tracking of its permit and writes its record if and only if its ids are labels, only an adapter reports boundaries, an adapter's permit is consumed and the permit is tracked for this request; and when it is late |
| AuditVerdict.Router.AuditPermitVerification | internal/router/router.go:343-374 | the state after recording a verification, whose outcome replaces only one of no higher priority |
| AuditVerdict.Router.RevokePermit | internal/router/router.go:456-509 | the permit store, the tracked permits and the record after a revocation |
| AuditVerdict.Router.IngestRuntimeEvent | internal/router/router.go:572-631 | the same after a runtime event: bad metadata, an unknown permit, and every verdict of the observer |
| AuditVerdict.EventOutsideEndsPermit | internal/router/router.go:596-604 | in every reachable state an event leaves its permit tracked if and only if it is bound to it and inside its envelope; otherwise the permit is not outstanding any more |
| AuditVerdict.UpdatesAreWritten | internal/router/router.go:343-790 | a written update is what the record found under its request id becomes |
| AuditVerdict.RecordsAreAppended | internal/router/router.go:376-408 | decisions and failed attempts append their record to log and window |
| AuditVerdict.EventIsRecorded | internal/router/router.go:572-631 | the verdict an event leaves, and on which request's record |
| AuditVerdict.NewRecordsExact | internal/router/router.go:376-408 | what a new record says of its permit and its outcome |
| Observer.EvaluationExact | internal/observer/observer.go:19-106 | an event is accepted if and only if it is bound to the permit in identity, evidence and time, and within the envelope if and only if it also stays inside every constraint; anything else ends the execution, and the violations are exactly the rules broken, with the table of trust and the writing operations written out |
| Observer.ValidateMetadata | internal/router/router.go:941-952 | the label loop accepts exactly the events whose labels are short and safe |
| Observer.CheckLabel | internal/router/router.go:928-939 | the character loop accepts exactly the safe labels |
| Observer.Evaluate | internal/observer/observer.go:19-106 | the violations in the order of the checks, and the flags they set |
| AuditVerdict.Router.CompleteExecution | internal/router/router.go:659-760 | the same after a completion: the four steps of the transition system, uninterrupted |
| Detection.SessionBounds | internal/detection/engine.go:170-190 | cumulative risk never falls, stays in 0..100 and is at least min(100, n); at most 128 events are kept, each in the order list |
| Detection.PoisonedInputThenSideEffect | internal/detection/engine.go:148-163 | with distinct ids a parentless side effect within twelve events of poisoned input is always recommended for denial |
| Detection.WindowHolds | internal/detection/engine.go:180-185 | with distinct ids the window is exactly the last 128 events |
| Detection.SignalsExact | internal/detection/engine.go:89-170 | the findings are exactly those raised, the delta adds up their points, and the route is the strongest that one of them calls for |
| Detection.ResultExact | internal/detection/engine.go:60-197 | the risk after an evaluation, the finding at the limit, the final route, the ancestors and the budget left |
| Detection.AncestorsExact | internal/detection/engine.go:234-247 | the ancestors are the one walk from parent to parent that goes as far as sixteen, a repeat or an unknown event allow |
| Detection.Engine.Evaluate | internal/detection/engine.go:60-197 | the session and the result after one evaluation |
| Detection.Engine.CollectSignals | internal/detection/engine.go:89-170 | findings, route and risk delta in the engine's order |
| Detection.Engine.HasPoisonedInput | internal/detection/engine.go:216-228 | finds retrieved content of no trust with an accepted signal, if there is any |
| Detection.Engine.ProtectedInputSource | internal/detection/engine.go:199-206 | finds a protected input, if there is any |
| Detection.CausalAncestors | internal/detection/engine.go:234-247 | the walk found by the loop: it is the ancestors, and it stops at a repeat, at an unknown event or at sixteen |
| Proxy.SentCallIsPermitted | internal/adapters/mcp/proxy.go:180-282 | a tool call leaves only when it met everything an execution must meet, its permit outstanding and signing the digest of the action; an exact-case reader finds in what is sent the method, the tool, the id and the version of the request, and arguments with the very value the digest was computed from; the URL is a profile's own, and the bound one when parsing keeps the profiles' URLs |
| Proxy.SentSetupIsOnTheList | internal/adapters/mcp/proxy.go:163-178 | what leaves without a permit goes to the control upstream, changes no store, and its exact-case method is server/discover or tools/list for a modern request and initialize, notifications/initialized, ping or tools/list for an older one |
| Proxy.SetupIsSentExactly | internal/adapters/mcp/proxy.go:126-178 | a request's own envelope goes to the control upstream without a permit if and only if it is POSTed, well formed, well routed and has one of those methods |
| Proxy.CallIsSentExactly | internal/adapters/mcp/proxy.go:180-248 | a tool call is sent, with this body to this URL, if and only if it is POSTed, goes on to the gate, its route leads to a profile's URL and it meets everything an execution must meet |
| Proxy.RouteExactly | internal/adapters/mcp/proxy.go:211-216 | a route is taken if and only if it parses to an absolute HTTP(S) URL whose text is a profile's |
| Proxy.CallReadsBack | internal/adapters/mcp/proxy.go:274-282 | whether an upstream matches member names exactly or folds them, it reads the same method, tool and arguments from a forwarded call, and the bound metadata |
| Proxy.McpProxy.Serve | internal/adapters/mcp/proxy.go:126-248 | a request sends at most one thing, a tool call only after the route check and a verified consumption, with the request's id and metadata, the body's tool and the prepared arguments |
| Proxy.NewProxy | internal/adapters/mcp/proxy.go:68-97 | a proxy exists if and only if a profile is registered and the control URL is an absolute HTTP(S) URL that a profile owns |
| McpEnvelope.OneToolName | internal/adapters/mcp/proxy.go:402-491 | on every accepted tools/call the exact-case tool of the body, the prepared tool and, when modern, the Mcp-Name header are one value |
| McpEnvelope.SetupIsOnTheList | internal/adapters/mcp/proxy.go:163-178 | anything forwarded without a permit has an exact-case method among the two of a modern request or the four of an older one, named |
| McpEnvelope.EnvelopeExactly | internal/adapters/mcp/proxy.go:255-272 | an envelope is accepted if and only if its exact names spell version 2.0 and a method, with no other member, whatever names fold together |
| McpEnvelope.CallExactly | internal/adapters/mcp/proxy.go:470-491 | the parameters of a call are accepted if and only if their exact names spell a tool, an argument object if any and metadata, with no other member |
| McpEnvelope.RoutingExactly | internal/adapters/mcp/proxy.go:402-468 | routing is accepted if and only if each header appears at most once and agrees with the body: a modern request repeats method, tool and version, an older one may leave them out, and no later version is known |
| McpEnvelope.SetupExactly | internal/adapters/mcp/proxy.go:163-178 | a request is forwarded without a permit if and only if it is well formed, well routed and its method is one of the setup methods of its version |
| McpEnvelope.GateExactly | internal/adapters/mcp/proxy.go:180-210 | a call goes on to the gate if and only if it is a well-formed and well-routed tools/call whose metadata repeats the version alone and whose proposal, field by field from headers and body, is prepared |
| McpEnvelope.FoldingAgrees | internal/adapters/mcp/proxy.go:250-272 | once only exact names are admitted, case-insensitive matching and exact reading agree |
| McpEnvelope.FoldingCanShadow | internal/adapters/mcp/proxy.go:250-254 | without that check a member in another case can shadow the exact one |

## Left out

- HTTP serving, header plumbing, redirects, timeouts and the response path: a dispatch is one event.
- SHA-256, Ed25519 and random identifiers themselves.
- `encoding/json` and `encoding/base64` beyond the codecs the round trips need: a struct member spelled in
  another case, an integer in exponent notation or Unicode white space around a document inside a token is
  not told apart as the libraries would; no signer writes one.
- Go strings that are not valid UTF-8: validation refuses them, and the model's text cannot express them.
  For input that is both oversized and not UTF-8 the model reports the encoding error, the program the size.
- `internal/policy`, `internal/risk` and the two profiles' argument checks: policy may allow or refuse any
  request, a profile is an arbitrary function.
- `internal/executionconstraints`: obligations are allowed exactly when all five are false; the individual
  check records are not kept.
- `internal/intake`, `internal/keyprovider`, `internal/config`, `internal/scenario`, `internal/discovery`,
  `internal/sessionaudit`, `internal/httpapi`, `cmd` and `web`: identity plumbing, loading, display and wiring.
- `BindDelegatedAuthorityFingerprint` and the label checks of `Validate`: straight-line guards on identifiers.
- Default values of the detection controls, evidence texts, severities and audit fields other than envelope,
  receipt and verdict.
- The permits of an earlier process: the permit store is in memory, so a router started on an existing log holds
  none of them.
- Guarantees.EachDispatchConsumesItsPermit: counts consumptions; it does not say that an authorized call is
  ever sent, since a thread may give up.
- Proxy.McpProxy.Serve: starts from the body as a tree, read and found unambiguous; the bytes that leave are the
  tree sent, and the spelling of its strings, the copied headers and the runtime event after the response are
  not modelled.
- Observer.Evaluate: rule names only; summaries and the expected and actual texts are not modelled.
- Issuer.PermitLifetime: durations are unbounded integers, so a grant's maximum beyond the int64 range of
  nanoseconds, where the program would wrap around, is not modelled.
- AuditStore.Store.AppendRecord: a write to the log succeeds or fails as a whole; partial lines, file creation
  and the JSON copy of a record are not modelled.
- AuditVerdict.ExecutedMeansConsumed: speaks of permits of this process and assumes one permit for each request id;
  a request that the starting log already records as executed keeps that record, and its permit is no longer held.
