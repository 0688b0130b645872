# Verified model of the trust-grant core

A trust grant lets one authority recognize or mint resources that another authority owns. This project models the
parts of the Rust workspace that decide, count and sign: the evaluation engine, the atomic mint and mutation ledger,
the selector contexts a request carries, the selector-expression language, the validation the engine relies on, and
the streaming canonical writer for ownership transitions. `dafny verify dfyconfig.toml` checks everything.

## Layout

| file | content |
|---|---|
| `Wrappers.dfy`, `Text.dfy`, `Ordering.dfy` | results, bounded 64-bit arithmetic, protocol limits; UTF-8, UTF-16, trimming, decimals; lexicographic order and sorting |
| `Utf16Key.dfy` | the map key that orders by UTF-16 code units |
| `SelectorKind.dfy`, `SelectorExpression.dfy` | selector kinds; the expression parser and printer |
| `ContextValue.dfy`, `InsertOrder.dfy`, `StableKey.dfy`, `SelectorContext.dfy` | the selector context as a value, the orders and spellings it keeps, its key, and the class that keeps it with its cached index |
| `Grants.dfy`, `Requests.dfy`, `Validation.dfy`, `DocumentValidation.dfy` | grants, requests, and validation of the lists a grant document is made of |
| `ValidationMeaning.dfy`, `DocumentMeaning.dfy` | what a validated list holds of the raw one, and what a validated document then permits |
| `Engine.dfy`, `EngineMeaning.dfy` | the ordered decision procedure and its set-based meaning |
| `Attenuation.dfy` | narrower grants, reordered grants, reordered inserts |
| `Permutations.dfy`, `RearrangedInput.dfy`, `RearrangedDocument.dfy` | raw documents whose lists are rearranged: when they stay valid, and that decisions stay the same |
| `Execution.dfy` | one executor call as a function of the ledger, and the executor class |
| `Sums.dfy`, `Ledger.dfy`, `LedgerRuns.dfy`, `Admission.dfy` | what each call keeps, what holds of whole runs, and exact admission |
| `Principals.dfy`, `Retries.dfy` | when the per-principal limit bounds a principal, and what a retry with rebuilt contexts gets |
| `Json.dfy`, `JsonReader.dfy`, `JsonNumber.dfy`, `CanonicalForm.dfy` | JSON trees and their serialization, a reader of JSON texts (RFC 8259), how RFC 8785 prints integers, and the canonical form |
| `TransitionDocument.dfy`, `TransitionReader.dfy`, `TransitionWriter.dfy` | transition documents as trees, what a reader finds under each name, and the writer class |

## What the model assumes

- A Rust string is a sequence of Unicode scalar values, and its length limits count UTF-8 bytes.
- `u64` is a bounded type, and saturating and checked addition are written out.
- The built-in selector kinds are recognized by ASCII lower-casing. The lower-casing of authority identifiers is a
  parameter of validation, so its results hold for any such function.
- A mutation callback is a function of the transaction and the authorization. Results over runs assume that a callback
  that succeeds leaves the transaction as it found it (`Ledger.WellBehaved`). The Rust type derives `Clone` and
  `Default`, so it does not enforce this; `Ledger.ReplacedTransactionForgets` shows what a callback outside the
  assumption does.
- Quota results assume that one grant id stands for one set of minting limits per resource type. Revocation state,
  clock, scopes and everything else of the grant may differ from call to call.
- A resource may be registered again at any time with any version, so version claims hold between registrations.
- An instant is an integer in requests and grants, and its rendered text (which needs no JSON escape) in transition
  documents. The map of resource types in a transition is the sequence of its entries in UTF-16 key order, the order
  in which that map is iterated.
- Writing into a byte vector cannot fail, so the writer has no error path.
- JSON strings are escaped as section 3.2.2.2 of RFC 8785 prescribes, which is what the string writer of the JSON
  library produces (`JsonTrees.EscapeJson`); the library itself is not part of this model.

Properties one might expect and that the code does not have, each with an input and when it does hold:

- The per-principal limit counts per ledger key, and the key prints the spelling of a built-in kind first inserted
  while kind equality ignores letter case. One actor named `actor` and `Actor` mints twice under a limit of one
  (`Principals.ActorMintsTwice`). The limit bounds a principal exactly when its names are spelled alike, or the limit
  is zero, the largest number, or no smaller than the total limit (`Principals.PrincipalQuotaExact`).
- Permuting the values inside a selector can make it repeat another, since duplicates are compared in order
  (`RearrangedInput.RearrangingRepeats`). Every rearrangement of a document is valid exactly when no list holds two
  selectors with the same kind, flag, value set and expressions up to order
  (`RearrangedDocument.RearrangedDocumentsValid`).
- A retry whose contexts were built by the same inserts in another order is a conflict, not a duplicate, although no
  decision can tell the two apart (`Retries.InsertOrderShows`, `Retries.RetryExact`).
- The writer prints every digit of a revision. That is the RFC 8785 form exactly when the revision is the shortest
  decimal of its nearest binary64 number, so below 2^53 always and for odd revisions from there on never
  (`TransitionWriter.CanonicalizeTransitionProposal`, `JsonNumbers.PrintsItself`, `TransitionWriter.OddRevisionsDepart`).
- Canonical bytes can show the order of members that repeat a name (`CanonicalForms.RepeatedNameKeepsOrder`); without
  repeated names they forget order at every depth (`CanonicalForms.CanonicalInjective`).
- Emptying the audience list of a resource type can widen the grant: the type falls back to the default audience, and
  what that admits is then allowed (`Attenuation.EmptiedAudienceWidens`, `Attenuation.DefaultAdmits`).
- The engine checks a quota with saturating addition. For a limit of 2^64 - 1 an overflowing sum passes that check, and
  only the checked addition at commit refuses it (`Ledger.CheckedSumWithinLimit`, `Ledger.OverflowStopsAtCommit`).

## Model

| member | source | states |
|---|---|---|
| `Execution.TryFromExact` | crates/trustgrant-evaluate/src/execution.rs:37-86 | a request becomes a mutation request exactly when it has an intent id and a complete binding (mint with template, or typed and versioned resource of the same type); it is kept unchanged and no actor is set; otherwise the error names the first thing missing |
| `Execution.StepIsAtomic` | crates/trustgrant-evaluate/src/execution.rs:436-580 | an error, a duplicate and a conflict leave the whole ledger as it was; a denial or stale call appends its authorization to the log and changes nothing else |
| `Execution.ResourceIdentity` | crates/trustgrant-evaluate/src/execution.rs:285-307 | two references are one resource exactly when origin authority, type and id are equal; the expected version plays no part |
| `Execution.InMemoryAtomicInventoryExecutor.RegisterResource` | crates/trustgrant-evaluate/src/execution.rs:394-403 | fails exactly for an untyped reference and then changes nothing; otherwise every reference of the same origin, type and id sees the new version, and every other reference sees what it saw before |
| `Execution.InMemoryAtomicInventoryExecutor.AuthorizeAndExecute` | crates/trustgrant-evaluate/src/execution.rs:436-580 | the class takes exactly the step of the ledger function, so every result over steps and runs is about it, and the step is all or nothing |
| `Ledger.AppliedMint` | crates/trustgrant-evaluate/src/execution.rs:525-574 | an applied mint was allowed and new, neither sum overflows, and the whole new ledger: both counters grow by the requested quantity, one record is processed and logged |
| `Ledger.AuthorizationCarries` | crates/trustgrant-evaluate/src/execution.rs:458-485 | what is recorded of a call: grant id, actor, intent and expiry as given, and the request unchanged, except that a mint carries the ledger's own two counters and the requested quantity |
| `Ledger.DeniedOutcome` | crates/trustgrant-evaluate/src/execution.rs:487-495 | a new intent that is not allowed is denied |
| `Ledger.ExistingOutcome` | crates/trustgrant-evaluate/src/execution.rs:497-574 | an allowed mutation of a resource is unknown without a version, stale with the current version when it expected another, and otherwise applied unless the callback fails or the version is the largest |
| `Ledger.MintOutcome` | crates/trustgrant-evaluate/src/execution.rs:525-574 | an allowed mint is applied, and its total grows by the quantity, unless the callback fails or one of the two sums overflows |
| `LedgerRuns.CallAdvancesOne` | crates/trustgrant-evaluate/src/execution.rs:497-574 | an applied mutation expected the version seen before and advances it by one, for references of its origin, type and id; every other reference sees what it saw before |
| `LedgerRuns.UnregisteredIsUnknown` | crates/trustgrant-evaluate/src/execution.rs:497-503 | after any run that never registers a resource an allowed mutation of it is refused as unknown, whatever other resources were registered |
| `Ledger.CheckedSumWithinLimit` | crates/trustgrant-evaluate/src/execution.rs:425-429 | saturating check at most the limit holds exactly when the true sum is within the limit or the limit is the largest number; together with a checked sum it gives the true bound |
| `Ledger.OverflowStopsAtCommit` | crates/trustgrant-evaluate/src/execution.rs:525-552 | an allowed mint whose total overflows ends in a counter overflow with the ledger unchanged, and this can only happen without a total limit or with the largest one |
| `Ledger.AllowedMintWithinQuota` | crates/trustgrant-evaluate/src/engine.rs:446-488 | whatever else the engine checks, an allowed mint has its type granted and both saturating sums within the limits of that type |
| `Ledger.StepKeepsLimits` | crates/trustgrant-evaluate/src/execution.rs:436-580 | every call keeps all totals and all per-principal counts within the limits of their grant and type |
| `LedgerRuns.QuotaSafety` | crates/trustgrant-evaluate/src/execution.rs:436-580 | after any sequence of registrations and calls from the empty ledger no total exceeds max_total and no principal key exceeds max_per_user, the largest limits included |
| `Ledger.StepConserves` | crates/trustgrant-evaluate/src/execution.rs:525-574 | every call keeps the total of a key equal to the sum over its principals, over processed records, and over the audit log |
| `LedgerRuns.Conservation` | crates/trustgrant-evaluate/src/execution.rs:436-580 | in every reachable ledger, for every grant and type: total = sum over principals = minted by processed records = minted by allowed log records |
| `LedgerRuns.PrincipalWithinTotal` | crates/trustgrant-evaluate/src/execution.rs:309-329 | where counts are conserved no principal has more than the total |
| `Principals.Credits` | crates/trustgrant-evaluate/src/execution.rs:525-574 | in every reachable ledger the counter of each principal key is exactly what processed and logged mints with that stable key add up to, so no mint is credited to another key |
| `Principals.PrincipalQuota` | crates/trustgrant-evaluate/src/execution.rs:436-580 | over any run under fixed limits, all that a principal mints of a type stays within max_per_user as long as the contexts that mean this principal spell their kinds alike |
| `Principals.TwoSpellingsPassLimit` | crates/trustgrant-evaluate/src/execution.rs:410-423 | any two contexts of one meaning spelled differently mint one more than a passable limit, both calls applied |
| `Principals.PrincipalQuotaExact` | crates/trustgrant-evaluate/src/execution.rs:410-580 | for two names of one principal the limit bounds every run exactly when the names are spelled alike or the limit is unpassable (zero, the largest number, or no smaller than the total limit) |
| `Principals.ActorMintsTwice` | crates/trustgrant-evaluate/src/execution.rs:410-580 | a concrete run: one actor, named actor and then Actor, has two mints applied under a limit of one each |
| `LedgerRuns.AuditLogGrows` | crates/trustgrant-evaluate/src/execution.rs:487-520 | over any run the old log is a prefix of the new one, and what follows is exactly the authorizations of the applied, denied and stale calls in call order |
| `LedgerRuns.RecordsAreFinal` | crates/trustgrant-evaluate/src/execution.rs:448-456 | once processed, an intent keeps its record through every later call and registration |
| `LedgerRuns.AppliedAtMostOnce` | crates/trustgrant-evaluate/src/execution.rs:448-456 | no two applied calls of a run have the same intent id |
| `LedgerRuns.Resubmission` | crates/trustgrant-evaluate/src/execution.rs:448-456 | resubmitting an applied intent at any later time changes nothing and gives the original authorization exactly for the same grant id and binding, otherwise a conflict, although the stored request carries the replaced mint context |
| `Retries.RetryExact` | crates/trustgrant-evaluate/src/execution.rs:448-456 | a retry of an applied intent with rebuilt contexts is a duplicate exactly when each of the four contexts equals the original entry by entry, else a conflict; the ledger is unchanged |
| `Retries.SameContextMeaning` | crates/trustgrant-evaluate/src/request.rs:716-725 | contexts that are equal as intents mean the same |
| `Retries.InsertOrderShows` | crates/trustgrant-evaluate/src/request.rs:67-112 | the converse fails: the same two inserts in either order build contexts of one meaning that intent equality tells apart |
| `Ledger.ReplacedTransactionForgets` | crates/trustgrant-evaluate/src/execution.rs:332-335 | a callback that replaces its transaction by a default one makes an applied mint erase earlier records and the log: why runs assume callbacks that keep it |
| `LedgerRuns.VersionsAreConsecutive` | crates/trustgrant-evaluate/src/execution.rs:497-520 | without a registration of a resource (origin, type, id) in between, the expected versions of its applied mutations are consecutive from its current version |
| `LedgerRuns.NoLostUpdates` | crates/trustgrant-evaluate/src/execution.rs:382-580 | between two registrations of one origin, type and id its current version is the registered one plus the applied count, and no two applied mutations expected the same version, whatever happens to other resources |
| `Admission.CandidateAuthorized` | crates/trustgrant-evaluate/src/engine.rs:446-488 | a quantity-1 mint that only the limits could refuse is allowed exactly when one more keeps the saturating total within max_total |
| `Admission.ExactAdmission` | crates/trustgrant-evaluate/src/execution.rs:458-580 | of n such mints with fresh distinct intents exactly min(n, max_total minus current total) are applied, and the total grows by that number |
| `Admission.AdmissionOrderFree` | crates/trustgrant-evaluate/src/execution.rs:458-580 | from any reachable ledger every order of the batch applies the same number of mints |
| `EngineMeaning.ValuesMeaning` | crates/trustgrant-evaluate/src/engine.rs:496-545 | the scan for up to 8 values and the hashed lookup above give the same match, and values with expressions match exactly when one value of the set is accepted |
| `EngineMeaning.SelectorMeaning` | crates/trustgrant-evaluate/src/engine.rs:496-545 | a selector matches a context exactly when it holds of the context read as a map from kind to value set |
| `EngineMeaning.CapabilityDecides` | crates/trustgrant-evaluate/src/engine.rs:379-401 | over the flags: an allowed mint has the type's mint flag, or without one the grant's, set, and recognizing likewise its own flag; a request refused as disabled has that flag unset; custom operations are never refused so |
| `EngineMeaning.FirstFailureExact` | crates/trustgrant-evaluate/src/engine.rs:63-225 | a list of checks allows exactly when all pass, and otherwise denies with the reason of the earliest failing one |
| `EngineMeaning.AudienceRefines` | crates/trustgrant-evaluate/src/engine.rs:337-377 | the audience decision is the earliest failing check over the meanings of the audience and principal contexts |
| `EngineMeaning.MintRefines` | crates/trustgrant-evaluate/src/engine.rs:446-488 | the minting decision is the earliest failing check, with the quotas stated as sums that may only overflow at the largest limit |
| `EngineMeaning.TypeRefines` | crates/trustgrant-evaluate/src/engine.rs:239-291 | capability, scope, operation, audience and quota checks in that order decide for one resource type |
| `EngineMeaning.EngineRefines` | crates/trustgrant-evaluate/src/engine.rs:63-225 | the engine allows a request exactly when every check holds over the meanings, and the reason it stores is that of the earliest failing check in the fixed order, beside the grant id and the request |
| `Attenuation.AttenuationSound` | crates/trustgrant-evaluate/src/engine.rs:63-488 | whatever a narrower grant allows (narrower or fewer allow selectors, wider or more deny selectors, fewer operations, lower limits, narrower window, fewer types, stricter revocation effect) the wider grant allows |
| `Attenuation.EmptiedAudienceWidens` | crates/trustgrant-evaluate/src/engine.rs:271-286 | a request refused by a type's own audience list is allowed once that list is emptied exactly when the default audience admits it and every other check passes |
| `Attenuation.DefaultAdmits` | crates/trustgrant-evaluate/src/engine.rs:271-286 | in particular an authority missing from the type's list but taken whole by a non-empty default list is then admitted |
| `Attenuation.ReorderingKeepsDecision` | crates/trustgrant-evaluate/src/engine.rs:293-377 | grants that differ in the order of selectors, values, expressions, operations or audience entries decide alike, reason included |
| `Attenuation.DecisionReadsMeaning` | crates/trustgrant-evaluate/src/engine.rs:63-291 | two requests whose contexts mean the same get the same decision, reason included |
| `Attenuation.InsertOrderKeepsDecision` | crates/trustgrant-evaluate/src/request.rs:67-112 | permuting the inserts that build any of the four contexts never changes a decision |
| `SelectorKinds.KindsAgree` | crates/trustgrant-domain/src/names.rs:228-296 | kind equality, kind order and the map key of kinds agree; the order is antisymmetric and transitive; equal spellings are equal kinds |
| `SelectorKinds.KindsExact` | crates/trustgrant-domain/src/names.rs:211-254 | kinds are the same exactly when their texts are or both spell one built-in name in any letter case; the three names have the slots 0, 1 and 2 |
| `SelectorKinds.KindOrderExact` | crates/trustgrant-domain/src/names.rs:265-296 | authority, namespace and actor come first in that order, user-defined kinds after them by their bytes |
| `SelectorContexts.SelectorContext.constructor` | crates/trustgrant-evaluate/src/request.rs:56-60 | a new context is the empty value and well built |
| `SelectorContexts.SelectorContext.Insert` | crates/trustgrant-evaluate/src/request.rs:67-112 | a successful insert adds exactly the trimmed value to the set of its kind; a failed one changes nothing; kinds stay distinct, values duplicate-free, sizes bounded and the index exact |
| `ValidationMeaning.ResolveExact` | crates/trustgrant-evaluate/src/request.rs:67-76 | an insert resolves exactly to the kind and the value as given without the whitespace around them, non-empty and within their limits |
| `SelectorContexts.SelectorContext.LookUp` | crates/trustgrant-evaluate/src/request.rs:115-127 | the lookup through the cached index equals the linear scan and returns exactly the value set of the kind |
| `ContextValues.InsertKeepsWellBuilt` | crates/trustgrant-evaluate/src/request.rs:67-112 | an insert keeps kinds pairwise distinct, values distinct, sizes within limits, and every index slot at its kind's entry |
| `ContextValues.IndexMatchesScan` | crates/trustgrant-evaluate/src/request.rs:115-127 | for every well-built context and kind the indexed lookup equals the scan |
| `ContextValues.InsertMeaning` | crates/trustgrant-evaluate/src/request.rs:67-112 | an insert adds one value to one kind's set, and succeeds exactly when the grown sets are within the limits |
| `ContextValues.InsertItemsMeaning` | crates/trustgrant-evaluate/src/request.rs:67-112 | a list of inserts succeeds exactly when its final sets fit the limits, and then builds exactly those sets |
| `InsertOrders.KindsInOrder` | crates/trustgrant-evaluate/src/request.rs:67-112 | the entries stand in the order in which their kinds were first inserted, each with the spelling of that first insert |
| `InsertOrders.ValuesInOrder` | crates/trustgrant-evaluate/src/request.rs:78-87 | the values of a kind stand in the order in which they were first inserted for it |
| `ContextValues.InsertionOrderIrrelevant` | crates/trustgrant-evaluate/src/request.rs:67-112 | a list of inserts succeeds exactly when each of its permutations does, with the same value set for every kind |
| `SelectorContexts.SelectorContext.StableKey` | crates/trustgrant-evaluate/src/request.rs:144-171 | the method that collects, sorts and appends rows gives the specified key |
| `StableKeys.EncodeInjective` | crates/trustgrant-evaluate/src/request.rs:155-170 | the length-prefixed encoding of rows is injective, also for texts holding digits and separators |
| `StableKeys.SortedTextsCanonical` | crates/trustgrant-evaluate/src/request.rs:148-153 | sorted values are equal exactly when the sets of values are |
| `StableKeys.StableKeyCanonical` | crates/trustgrant-evaluate/src/request.rs:144-171 | two built contexts have equal keys exactly when they have the same kind strings with the same value sets |
| `StableKeys.KeyFollowsSpelling` | crates/trustgrant-evaluate/src/request.rs:144-171 | contexts that mean the same have equal keys exactly when they spell their kinds alike |
| `StableKeys.SameMeaningTwoKeys` | crates/trustgrant-evaluate/src/request.rs:151 | a concrete pair of contexts with the same meaning and different keys |
| `StableKeys.OneKindKey` | crates/trustgrant-evaluate/src/request.rs:155-171 | the layout of a key: kind and value each after its byte length and a colon, a bar before the value and a semicolon at the end |
| `Requests.SameIntentEquivalence` | crates/trustgrant-evaluate/src/request.rs:716-725 | intent equality is reflexive, symmetric and transitive, and blind to the mint context the executor replaces |
| `Retries.SameIntentExact` | crates/trustgrant-evaluate/src/request.rs:716-725 | requests are one intent exactly when the four contexts are equal as contexts and they differ in nothing else but intent id, mint context, clock and verification flag |
| `Retries.SameContextExact` | crates/trustgrant-evaluate/src/request.rs:36-54 | built contexts are equal exactly when they have the same kinds and values entry by entry; their cached index adds nothing |
| `Utf16Key.Cmp` | crates/trustgrant-domain/src/canonicalization.rs:35-52 | the loop over both encodings gives the lexicographic order of code units; Less has a first place of difference; Equal exactly on equal strings |
| `Utf16Key.Utf16Injective` | crates/trustgrant-domain/src/canonicalization.rs:35-52 | two strings with the same UTF-16 encoding are equal |
| `Utf16Key.Utf16CharDecodes` | crates/trustgrant-domain/src/canonicalization.rs:35-52 | the units of a character: itself below U+10000, else a high and a low surrogate with ten bits each |
| `Utf16Key.TotalOrder` | crates/trustgrant-domain/src/canonicalization.rs:35-52 | the key order is trichotomous and transitive |
| `Utf16Key.DiffersFromByteOrder` | crates/trustgrant-domain/src/canonicalization.rs:5-9 | the key order differs from the byte order exactly when the first differing characters are one in U+E000..U+FFFF and one at or above U+10000 |
| `SelectorExpressions.ParseQuotedArgument` | crates/trustgrant-domain/src/selector_expression.rs:160-203 | the loop accepts exactly the quoted escaped forms of printable arguments within the limit, and returns that argument |
| `SelectorExpressions.Display` | crates/trustgrant-domain/src/selector_expression.rs:131-148 | what is printed parses back to the expression when its argument is printable and the text fits the limit |
| `SelectorExpressions.MatchesExact` | crates/trustgrant-domain/src/selector_expression.rs:121-128 | equals: the candidate is the argument; startsWith, endsWith, contains: it is the argument with some rest, some head, or both around it |
| `SelectorExpressions.TextsMatch` | crates/trustgrant-domain/src/selector_expression.rs:82-128 | from text to candidates: the four predicate names followed by a quoted argument parse to expressions that match exactly so |
| `SelectorExpressions.EscapesExact` | crates/trustgrant-domain/src/selector_expression.rs:160-203 | the five escapes and the characters they stand for, and no others |
| `SelectorExpressions.UnescapeEscape` | crates/trustgrant-domain/src/selector_expression.rs:131-203 | unescaping an escaped text gives it back, or fails exactly when it holds a control character other than newline, return and tab |
| `SelectorExpressions.EscapeUnescape` | crates/trustgrant-domain/src/selector_expression.rs:131-203 | escaping what was unescaped gives the original text back |
| `SelectorExpressions.SplitInverse` | crates/trustgrant-domain/src/selector_expression.rs:82-106 | a text that splits is its name and quoted part with only whitespace around them |
| `SelectorExpressions.AcceptedTexts` | crates/trustgrant-domain/src/selector_expression.rs:82-203 | the accepted language: a text parses to an expression exactly when it spells it with whitespace only at the four free places, the argument is printable and the trimmed text fits the limit |
| `SelectorExpressions.ParsePrinted` | crates/trustgrant-domain/src/selector_expression.rs:82-203 | the outcome of parsing any printed expression: too long, not printable, or the expression itself |
| `SelectorExpressions.PrintParsed` | crates/trustgrant-domain/src/selector_expression.rs:82-203 | printing the parse of an accepted text gives that text with only its free whitespace removed |
| `Validation.NormalizeNonEmptyStrings` | crates/trustgrant-document/src/validated.rs:1007-1029 | the result is duplicate-free and a fixed point of normalization |
| `Validation.FirstOccurrencesExact` | crates/trustgrant-document/src/validated.rs:1022-1028 | deduplication keeps the same set, no repeats, in the order of first positions |
| `Validation.ValidateSelectors` | crates/trustgrant-document/src/validated.rs:903-922 | succeeds exactly when the list fits the limit, each selector is valid and no two are equal |
| `Validation.ValidatedEachIff` | crates/trustgrant-document/src/validated.rs:903-922 | success keeps every selector, validated, in its place |
| `ValidationMeaning.BoundedExact` | crates/trustgrant-evaluate/src/request.rs:779-792 | an accepted text is what is left between the surrounding whitespace, non-empty and within the limit |
| `ValidationMeaning.TokenExact` | crates/trustgrant-domain/src/names.rs:412-435 | an accepted token moreover holds no whitespace or control character |
| `ValidationMeaning.AuthorityExact` | crates/trustgrant-domain/src/authority.rs:57-103 | an authority is the lower-cased text between the surrounding whitespace, within the limit before and after, with a non-empty scheme before its first colon |
| `ValidationMeaning.SelectorExact` | crates/trustgrant-document/src/validated.rs:924-946 | a selector is valid exactly when kind, values and expressions are and it stands for all exactly when it lists neither; it keeps each of them |
| `ValidationMeaning.SelectorHolds` | crates/trustgrant-document/src/validated.rs:924-966 | a validated selector holds of a context exactly when some value of its kind is one of its raw values or is as one of its raw expressions says |
| `ValidationMeaning.ScopeExact` | crates/trustgrant-document/src/validated.rs:876-901 | a scope is valid exactly when both lists are and it allows all exactly when it lists nothing to allow; allow[i] and deny[i] are the validated raw allow[i] and deny[i], and the flag is the raw one |
| `ValidationMeaning.ScopeDecides` | crates/trustgrant-evaluate/src/engine.rs:293-335 | a validated scope admits exactly what its raw allow list (or flag) permits and its raw deny list does not refuse, with the reason of the failing list |
| `ValidationMeaning.OperationsExact` | crates/trustgrant-document/src/validated.rs:968-975 | operations are valid exactly when some are allowed, each is a token and neither list repeats one; each list keeps its own names in place |
| `Validation.ValidateScopeGives` | crates/trustgrant-document/src/validated.rs:876-901 | a validated scope allows everything or lists what it allows, never both, with distinct well-shaped selectors |
| `Validation.ValidateAudienceEntries` | crates/trustgrant-document/src/validated.rs:849-874 | a validated audience has one entry per authority, in the given order, with valid scopes |
| `Validation.EnsureNoDuplicateOperations` | crates/trustgrant-document/src/validated.rs:977-987 | succeeds exactly when no operation name repeats |
| `DocumentMeaning.EntryExact` | crates/trustgrant-document/src/validated.rs:856-871 | an audience entry is valid exactly when its authority, scope and principal scope are, and keeps each of them |
| `DocumentMeaning.TypeExact` | crates/trustgrant-document/src/validated.rs:788-815 | a resource type is valid exactly when its scope, audience and operations are; it keeps them, its capability flags and its limits |
| `DocumentMeaning.TypesExact` | crates/trustgrant-document/src/validated.rs:772-786 | of raw types whose names trim to one name the last decides |
| `DocumentMeaning.AudienceDecides` | crates/trustgrant-document/src/validated.rs:849-874 | a validated audience admits exactly whom its raw entries permit: the entry of that authority, its allow list and not its deny list, and the same for the principal |
| `DocumentMeaning.ValidatedDocumentDecides` | crates/trustgrant-evaluate/src/engine.rs:63-291 | from raw lists to decision: a validated document allows a request exactly when its raw target scope, resource type, operations, audience and limits permit it and the other checks pass |
| `RearrangedInput.PermutedSelectors` | crates/trustgrant-document/src/validated.rs:903-922 | a list of selectors is valid in every order or in none, with the same validated selectors |
| `RearrangedInput.RearrangedSelector` | crates/trustgrant-document/src/validated.rs:924-966 | permuting the values and expressions of a selector keeps it valid or invalid and keeps both sets |
| `RearrangedInput.RearrangingRepeats` | crates/trustgrant-document/src/validated.rs:903-922 | values a, b and b, a of one kind are two selectors; rearranging the second makes the list invalid |
| `RearrangedInput.RearrangedListsValid` | crates/trustgrant-document/src/validated.rs:903-966 | every rearrangement (selectors, and values and expressions within them) of a valid list is valid exactly when no two of its selectors agree in kind, flag, value set and expressions up to order |
| `RearrangedDocument.ValidatedEntriesIff` | crates/trustgrant-document/src/validated.rs:849-874 | an audience is valid exactly when every entry is and no two normalize to one authority |
| `RearrangedDocument.PermutedAudience` | crates/trustgrant-document/src/validated.rs:849-874 | an audience is valid in every order of its entries or in none |
| `RearrangedDocument.OperationsValid` | crates/trustgrant-document/src/validated.rs:968-987 | permuting allowed and denied operations keeps the scope valid, with the same names |
| `RearrangedDocument.RearrangedDocumentsValid` | crates/trustgrant-document/src/validated.rs:772-901 | every rearrangement of a document's target scope, default audience and resource types is valid exactly when none of its selector lists holds two that are alike |
| `RearrangedDocument.RearrangingKeepsDecision` | crates/trustgrant-document/src/validated.rs:214-218 | rearranging any list of a valid document, resource types included, never changes a decision or its reason, and under that condition the rearranged document is valid |
| `JsonReaders.EscapeCharRead` | crates/trustgrant-ownership/src/canonicalize.rs:455-463 | every escaped character is read back as itself, control characters by their hexadecimal code |
| `JsonReaders.DecimalValue` | crates/trustgrant-ownership/src/canonicalize.rs:445-448 | the digits printed for a number have that number as their value and no leading zero |
| `JsonReaders.ValueRead` | crates/trustgrant-ownership/src/canonicalize.rs:419-470 | a reader of JSON texts (RFC 8259) that shares nothing with the serializer reads every serialized tree back and stops where it ends |
| `JsonReaders.PlainPrefix` | crates/trustgrant-ownership/src/canonicalize.rs:419-470 | with an end mark, no serialization is a proper start of another |
| `JsonReaders.BytesInjective` | crates/trustgrant-ownership/src/canonicalize.rs:419-470 | equal serialized bytes come from equal trees |
| `CanonicalForms.NormalizeSorts` | crates/trustgrant-domain/src/canonicalization.rs:5-9 | without repeated names the canonical form is sorted by UTF-16 code units at every depth and is the same tree up to member order |
| `CanonicalForms.SortedUnique` | crates/trustgrant-domain/src/canonicalization.rs:5-9 | two sorted trees that agree up to member order are equal: the canonical form is unique |
| `CanonicalForms.CanonicalInjective` | crates/trustgrant-domain/src/canonicalization.rs:5-9 | for trees without repeated names and with exact numbers, canonical bytes are equal exactly when the trees agree up to member order at every depth |
| `CanonicalForms.RepeatedNameKeepsOrder` | crates/trustgrant-domain/src/canonicalization.rs:5-9 | two objects that repeat a name agree up to member order and have different canonical forms |
| `CanonicalForms.CanonicalExact` | crates/trustgrant-ownership/src/canonicalize.rs:445-453 | printing every digit gives the RFC 8785 bytes of a sorted tree exactly when each of its numbers prints as itself |
| `JsonNumbers.RfcIsEcma` | crates/trustgrant-ownership/src/canonicalize.rs:445-448 | the digits modelled for a 64-bit integer are those ECMAScript prints for its binary64 number: most final zeros, then closest, then even (section 3.2.2.3 of RFC 8785) |
| `JsonNumbers.NearestIsNearest` | crates/trustgrant-ownership/src/canonicalize.rs:445-448 | the modelled rounding gives a binary64 number to which none is nearer, and on a tie the even one |
| `JsonNumbers.EcmaUnique` | crates/trustgrant-ownership/src/canonicalize.rs:445-448 | a binary64 number has one such printed form |
| `JsonNumbers.PrintsItself` | crates/trustgrant-ownership/src/canonicalize.rs:445-448 | an integer prints as its own digits exactly when these are the ECMAScript digits of its nearest binary64 number |
| `JsonNumbers.OddNeverPrints` | crates/trustgrant-ownership/src/canonicalize.rs:445-448 | from 2^53 on no odd integer does |
| `JsonNumbers.FirstLost` | crates/trustgrant-ownership/src/canonicalize.rs:445-448 | 2^53 + 1 rounds to 2^53 and does not print as itself |
| `TransitionDocuments.NormalizeProposal` | crates/trustgrant-ownership/src/canonicalize.rs:92-135 | sorting the members of a proposal's tree at every depth by UTF-16 code units (section 3.2.3 of RFC 8785) gives the hand-written order |
| `TransitionDocuments.NormalizeAcceptance` | crates/trustgrant-ownership/src/canonicalize.rs:137-192 | the same for an acceptance |
| `TransitionDocuments.ProposalSorted` | crates/trustgrant-ownership/src/canonicalize.rs:92-135 | the hand-ordered proposal is sorted at every depth and is the document without its signature sections up to member order |
| `TransitionDocuments.AcceptanceSorted` | crates/trustgrant-ownership/src/canonicalize.rs:137-192 | the same for the acceptance, which leaves out only the successor's signature |
| `TransitionReaders.ProposalRead` | crates/trustgrant-ownership/src/canonicalize.rs:92-135 | looked up by name, every field of a proposal is that field of the document, down to selectors and time windows; neither signature section is present |
| `TransitionReaders.AcceptanceRead` | crates/trustgrant-ownership/src/canonicalize.rs:137-192 | the same for an acceptance, with the predecessor's key id and signature and the successor's time and key id each under its own name, and no signature of the successor |
| `TransitionReaders.ProposalJsonRead` | crates/trustgrant-ownership/src/canonicalize.rs:92-135 | the declaration-order tree of a proposal carries the same under the same names |
| `TransitionReaders.AcceptanceJsonRead` | crates/trustgrant-ownership/src/canonicalize.rs:137-192 | the same for an acceptance |
| `TransitionReaders.ProposalTextRead` | crates/trustgrant-ownership/src/canonicalize.rs:42-63 | a reader of the written text of a proposal finds every field under its name and neither signature section |
| `TransitionReaders.AcceptanceTextRead` | crates/trustgrant-ownership/src/canonicalize.rs:65-90 | the same for an acceptance, without the successor's signature |
| `TransitionWriter.CanonicalWriter.WriteBytes` | crates/trustgrant-ownership/src/canonicalize.rs:459-463 | appends the UTF-8 bytes of the piece, keeping the buffer equal to the bytes of all text written |
| `TransitionWriter.CanonicalWriter.WriteDateTimeField` | crates/trustgrant-ownership/src/canonicalize.rs:371-385 | a rendered time quoted without escaping is the JSON string of that text |
| `TransitionWriter.CanonicalWriter.WriteStringArrayField` | crates/trustgrant-ownership/src/canonicalize.rs:338-360 | appends the member that pairs the name with null or the array of the strings |
| `TransitionWriter.CanonicalWriter.WriteSelector` | crates/trustgrant-ownership/src/canonicalize.rs:263-276 | appends the serialization of the selector with its members sorted |
| `TransitionWriter.CanonicalWriter.WriteResourceTypeMapField` | crates/trustgrant-ownership/src/canonicalize.rs:205-224 | appends the member whose value is the object of all entries in key order |
| `TransitionWriter.CanonicalWriter.WriteTransitionProposal` | crates/trustgrant-ownership/src/canonicalize.rs:92-135 | appends the serialization of the sorted proposal tree, neither signature section in it |
| `TransitionWriter.CanonicalWriter.WriteTransitionAcceptance` | crates/trustgrant-ownership/src/canonicalize.rs:137-192 | appends the serialization of the sorted acceptance tree, the successor's signature left out |
| `TransitionWriter.CanonicalizeTransitionProposal` | crates/trustgrant-ownership/src/canonicalize.rs:42-63 | the bytes equal the RFC 8785 serialization of the document's tree without the signature sections exactly when the revision prints as itself, so for every revision below 2^53 |
| `TransitionWriter.CanonicalizeTransitionAcceptance` | crates/trustgrant-ownership/src/canonicalize.rs:65-90 | the same for the tree without the successor's signature |
| `TransitionWriter.OddRevisionsDepart` | crates/trustgrant-ownership/src/canonicalize.rs:445-448 | for every odd revision from 2^53 on neither payload is the RFC 8785 serialization |
| `TransitionWriter.ProposalInjective` | crates/trustgrant-ownership/src/canonicalize.rs:92-135 | proposal bytes are equal exactly when every field outside the two signature sections is |
| `TransitionWriter.AcceptanceInjective` | crates/trustgrant-ownership/src/canonicalize.rs:137-192 | acceptance bytes are equal exactly when every field but the successor's signature is |
| `TransitionWriter.DomainsSeparate` | crates/trustgrant-ownership/src/canonicalize.rs:92-192 | no document's proposal bytes are any document's acceptance bytes |

## Left out

- Verification of ownership chains, the verification pipeline, proof bundles and the grant canonicalizer.
- Checking of signatures, key discovery and the port interfaces around it: foreign calls.
- Parsing of JSON, UUIDs and dates and rendering of dates: library behaviour; the model starts from parsed fields.
- Actor and envelope expiry as conditions of execution: the in-memory executor stores both and checks neither.
- Validation of identifiers, lineage, time windows, revocation blocks and principals of a grant document; its target
  scope, default audience and resource types are modelled.
- The freshness rule of revocation records beyond the comparison with the end of the freshness window.
- Hash maps and the mutex: maps are values in the model, and any sequence of calls stands for any interleaving.
- The clone of the ledger inside a call: the transaction is a value, so copying it and committing it is assignment.
- Memory exhaustion, tracing spans, error message texts, accessors and identifier constructors.
