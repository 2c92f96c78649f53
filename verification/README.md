# Verification model of the Domainry identity SDK

The SDK decides who may do what with which records and fields. One access bundle carries function grants, data
policies, field policies, reference and export policies and guardrails; two independent interpreters read it, a record
evaluator in memory and a compiler to SQL, and several transformations rewrite it. Around that core stand a remote
client with a circuit breaker and retries, a resolver that caches authenticated principals, and two normalisers of
release files. This project models those parts in Dafny and proves what they promise.

Check everything with `dafny verify dfyconfig.toml`.

## How the model is built

- **Values.** Bundles, predicates, requests and facts are datatypes with the source's fields; Go's `any` is the sum
  type `Contract.Value`; errors keep the source's error codes; the zero time is `None`.
- **Loops and state.** A loop of the source that updates variables is a method with that loop, proved equal to a
  specification function; recursion and plain searches are functions and predicates; every
  object whose methods change its fields is a class (`Breaker.CircuitBreaker`, `Cache.MemoryCache`,
  `Resolver.PrincipalResolver`, `ProjectPolicy.NodeCounter`). The laws are lemmas about the specification functions and
  about whole runs of them.
- **Outside world.** Clock readings, the authority's answers, HTTP outcomes, claims and column names are parameters.
  Serialised JSON is compared through a total order given as a parameter, SHA-256 is some function of the canonical
  bindings, and the composite keys the source joins with NUL characters are tuples.
- **Concurrency.** Lock-protected methods are atomic steps; the breaker and the cache are then studied over every
  sequence of such steps. A Get of the cache is two steps with anything in between, and calls of the client take turns
  at the breaker in any order (`Callers`). Where the order of a Go map decides, the model is a relation between input
  and possible outcomes (`Navigation.Produces`).

| modules | subject |
|---|---|
| `Wrappers`, `Text`, `Lists`, `Contract` | results, Go string operations, lists and sorting, the entities of the bundle |
| `Validation`, `BundleRules`, `BundleRefusals` | validation of a bundle, its rules written out on the entries' own fields, and which fault is reported |
| `Context`, `Field`, `Evaluator`, `FieldLaws` | reference resolution, field and record decisions |
| `References`, `Conditions`, `FieldMeaning`, `Decisions` | what a reference compares with, and which answer each request gets, said without the functions that compute it |
| `Sql`, `Filter`, `FilterText`, `FilterMeaning`, `Translation` | three-valued SQL conditions (sections 8.2 to 8.12 of ISO/IEC 9075:1992), the compiler, its text, its meaning, and what it can translate |
| `Canonical`, `CanonicalBundle`, `CanonicalOrder`, `CanonicalFields`, `CanonicalOutput` | canonical predicates and bundles |
| `ProjectPolicy`, `ProjectPolicyNormal`, `ProjectPolicyForms`, `ProjectPolicyRefusals` | authored data policies: limits, compilation, normal form |
| `Execution`, `ExecutionGates`, `ExecutionLaws`, `ExecutionFields` | execution grants: when they are derived, and what they open |
| `Restriction`, `RestrictionMeaning`, `Permission` | scope restriction, the route gate |
| `Breaker`, `Retry`, `Client`, `ClientLaws`, `Callers` | circuit breaker, back-off, attempt loop, several calls at one breaker |
| `Cache`, `Resolver`, `ResolverLaws` | principal cache and authentication through it |
| `Sample` | one bundle on which the assumptions of the main laws hold together |
| `Navigation`, `NavigationLaws`, `NavigationMeaning`, `NavigationRefusals` | navigation catalogs |
| `Workload`, `WorkloadLaws`, `WorkloadMeaning` | workload bindings |

## Where the code does not do what one would expect

Each of these is proved with its exact condition.

- **A spaced `in`.** Validation trims a policy's operator, compilation does not (`authorization/project_roles.go:231`), so
  `" in "` is accepted and compiled to an equality that matches no text. Compilation agrees with validation iff every
  `in` is plainly written (`CompilesAsValidated`, `SpacedInExample`); normalising first repairs it (`NormalizedMeaning`).
- **Relation paths to odd names.** Validation accepts any non-blank target of a relation path
  (`authorization/project_roles.go:170`), a predicate only an identifier. The compiled predicate is valid iff every target
  is one (`CompiledValid`).
- **Colliding execution keys.** A source policy whose projected key is already taken by another policy is dropped, even a
  deny (`authorization/execution.go:104-110`). It arrives iff no other kept policy has its key (`ProjectionArrives`); what
  the target then shows is stated for every bundle (`DerivedScope`, `ExecutionScope`), with a concrete loss
  (`SampleCollision`).
- **Execution fields hide.** A granted field that only a broader entry covered becomes write-only, so its readers lose it
  (`authorization/execution.go:87-89`, `GrantedFieldReads`).
- **Restriction can uncover.** Dropping an exact field entry can expose a wildcard behind it
  (`authorization/restriction.go:34-43`). The choice of entry is preserved iff that does not happen (`RestrictedChoice`,
  `WildcardUncovers`).
- **Back-off overflow.** With a maximum above 2^62 ns a doubling can wrap to a negative wait (`remote/retry.go:45-52`). The
  delays are exponential iff no step below the maximum reaches 2^62 (`BackoffIsExponential`).
- **NULL under negation.** The evaluator says yes to a negated comparison over an absent fact, SQL says unknown
  (`NegatedComparisonOverNull`), and guardrails naming a field count in the filter only. The clause selects exactly the
  allowed records on which no such guardrail would match and whose condition rests on no comparison with NULL
  (`SqlSelectsExactly`).
- **Fields named twice.** The duplicate check compares field names as written (`authorization/policy.go:72`), matching
  trims them, so `x` and ` x` may stand side by side. The list order decides iff a field is so named twice
  (`OrderMattersIffAmbiguous`).
- **Permission keys with two readings.** `a.b` for `c` and `a` for `b.c` share the key `a.b.c`. The gate refuses an allowed
  record iff a deny is read for the wrong one or the action ends in a dot (`AllowedImpliesPermission`, `MisreadExample`).
- **Colliding locales.** When labels of one menu collide after trimming, Go's map order picks one
  (`authorization/project_navigation.go:67`). The outcome is determined iff colliding labels of an accepted catalog agree
  (`OutcomeUnique`).

## Model

| member | source | states |
|---|---|---|
| `Validation.CheckEntries` | authorization/policy.go:26-36 | The `seen`-map loop every list of the bundle goes through: the first refused entry or repeated key, in list order. |
| `Validation.FirstErrorMeaning` | authorization/policy.go:37-66 | That loop accepts a list iff every entry passes its checks and no two entries share a key, so list order never decides acceptance. |
| `Validation.FirstErrorOfTwoMeaning` | authorization/policy.go:77-99 | The same for field rules, which may repeat neither key nor priority. |
| `Validation.PredicatesCheckMeaning` | authorization/policy.go:205-244 | A group of predicates is valid iff each of them is. |
| `Validation.CheckDataPolicies` | authorization/policy.go:37-66 | The data-policy loop with the scope loop inside it: the first failing check in the order of the list. |
| `Validation.CheckRules` | authorization/policy.go:77-99 | The rule loop of one field policy with its two `seen` maps. |
| `Validation.CheckFieldPolicies` | authorization/policy.go:67-100 | The field-policy loop with the rule loop inside it. |
| `Validation.Validate` | authorization/policy.go:13-150 | Reports the first failing check of the bundle in the source's order, with its code. |
| `Validation.ValidationMeaning` | authorization/policy.go:13-150 | A bundle is accepted iff its header is valid and each of its six lists is well formed entry by entry with distinct keys. |
| `BundleRules.AcceptedExactly` | authorization/policy.go:13-150 | A bundle is accepted iff every entry of it keeps its written rules, said on the entries' own fields, and no two entries of a list share their key. |
| `BundleRefusals.ReportedExactly` | authorization/policy.go:13-150 | Validation reports the first fault: the header's parts in order, then each list from its start, each entry for what it is, then for its key among those before it, then for what it holds, with the code of each, nested scopes, rules and predicates included. |
| `BundleRules.PredicateRuleMeaning` | authorization/policy.go:205-244 | A predicate is accepted iff it is exactly one of a comparison with a known operator and at most three relation steps, a non-empty All, a non-empty Any and a Not, recursively. |
| `BundleRules.PlainIdentifier` | identity/identifiers.go:31-42 | Among printable ASCII texts without spaces the identifiers are those of 1 to 256 characters. |
| `Evaluator.GrantLoop` | authorization/evaluator/evaluator.go:61-73 | The flag and the early return amount to: any matching deny closes the request for good, otherwise any matching grant opens it. |
| `Evaluator.GuardrailLoop` | authorization/evaluator/evaluator.go:74-94 | The first record guardrail that matches or fails ends the evaluation; those naming a field are skipped. |
| `Evaluator.PolicyLoop` | authorization/evaluator/evaluator.go:95-114 | The data-policy loop: which deny or failure stops it, and otherwise the three flags. |
| `Evaluator.Evaluate` | authorization/evaluator/evaluator.go:53-133 | The whole evaluation of one request, layer by layer, with decision and error codes. |
| `Evaluator.EvalAllMeaning` | authorization/evaluator/evaluator.go:146-155 | When no child fails, All holds iff every child does, whatever short-circuiting skips. |
| `Evaluator.EvalAnyMeaning` | authorization/evaluator/evaluator.go:156-166 | When no child fails, Any holds iff some child does. |
| `Evaluator.AllowedMeaning` | authorization/evaluator/evaluator.go:53-133 | A record request is allowed iff the order-free reading of the bundle allows it: denies win wherever they stand, one failing applicable policy or guardrail refuses, and no applicable allow means no. |
| `Evaluator.AllowedByLayers` | authorization/evaluator/evaluator.go:115-132 | A request for a field is allowed iff its record is and the field layer allows it. |
| `Decisions.NotProper` | authorization/evaluator/evaluator.go:53-60 | A refused bundle or a malformed request is answered with its own reason and error, before anything else. |
| `Decisions.NotGranted` | authorization/evaluator/evaluator.go:61-73 | Without an allowing grant, or with a denying one, the answer is `function_not_granted` or `function_denied`. |
| `Decisions.FirstGuardrailEnds` | authorization/evaluator/evaluator.go:74-94 | Past the grants, the first guardrail on the whole record whose condition does not come out false ends the evaluation, with its key and reason or as `guardrail_invalid`. |
| `Decisions.FirstPolicyEnds` | authorization/evaluator/evaluator.go:95-114 | Past the guardrails, the first data policy that fails or denies ends it, as `data_policy_invalid` or with its key, reason and audit flag. |
| `Decisions.NothingAdmits` | authorization/evaluator/evaluator.go:115-121 | When none ends it and none admits the record, it is refused, and the denial audited iff some policy on it asks for that. |
| `Decisions.Admitted` | authorization/evaluator/evaluator.go:95-132 | A record that some policy admits and none ends is allowed; one of its fields iff the field decision opens or masks it, else with that decision's own reasons. |
| `References.LiteralComparison` | authorization/evaluator/evaluator.go:171-202 | What each of the six comparisons answers for a value that is no reference: an absent fact matches nothing but `exists false`, and a value of the wrong kind is an error. |
| `Conditions.AllDecided` | authorization/evaluator/evaluator.go:146-155 | The first child of an All that does not hold decides, with no or with its failure; later ones are not asked. |
| `Conditions.AnyDecided` | authorization/evaluator/evaluator.go:156-166 | The first child of an Any that holds or fails decides. |
| `Conditions.NoneDecides` | authorization/evaluator/evaluator.go:146-166 | When no child decides, an All holds and an Any does not. |
| `Conditions.NotTurns` | authorization/evaluator/evaluator.go:167-170 | A Not turns its child's answer round and passes its failure on. |
| `Conditions.PathRefused` | authorization/evaluator/evaluator.go:139-145 | Neither interpreter follows a relation path. |
| `References.AbsentClaim` | authorization/evaluator/context.go:42-53 | A comparison with a claim the user does not have, or has as null, holds for no facts under any operator, and its clause is the never-true one. |
| `References.PresentClaim` | authorization/evaluator/context.go:42-54 | A comparison with a claim the user has is evaluated and compiled exactly as the one with the claim's value in its place, with or without `claims.`. |
| `References.NamelessClaim` | authorization/evaluator/context.go:42-46 | A claim reference without a name is an error on both sides. |
| `References.SubjectFact` | authorization/evaluator/context.go:32-37 | A comparison with an identity fact of the subject is evaluated and compiled as the one with that fact in its place. |
| `References.UnknownSubjectFact` | authorization/evaluator/context.go:32-36 | A subject reference to no identity fact is an error on both sides. |
| `Field.ScanGuardrails` | authorization/evaluator/field.go:66-84 | The first field guardrail that matches or fails decides. |
| `Field.ChoosePolicy` | authorization/evaluator/field.go:86-104 | The best-score loop picks the first entry of the highest score. |
| `Field.ApplyRules` | authorization/evaluator/field.go:109-133 | The first applicable rule of the sorted copy that matches or fails decides. |
| `Field.EvaluateField` | authorization/evaluator/field.go:58-135 | The whole field decision: guardrails, then the chosen entry's rules, then its static flags. |
| `FieldLaws.BestPolicyMeaning` | authorization/evaluator/field.go:86-104 | On a list where no resource names one field twice the chosen entry is the unique one of highest score among those naming the field. |
| `FieldLaws.ChosenPolicyPermuted` | authorization/evaluator/field.go:86-104 | The chosen entry of such a list does not depend on the order of the field policies. |
| `FieldLaws.OrderMattersIffAmbiguous` | authorization/policy.go:67-75 | Among validated lists, which may hold `x` and ` x` side by side, exactly those that name no field twice up to surrounding space are read the same in every order. |
| `FieldLaws.RuleOrderPermuted` | authorization/evaluator/field.go:109-110 | Rules are tried in the same order however they are listed. |
| `FieldLaws.HighestPriorityDecides` | authorization/evaluator/field.go:109-133 | Of the applicable rules that match, the one of highest priority decides; without any, none does; rules for other actions are never run. |
| `FieldLaws.FieldVerdictPermuted` | authorization/evaluator/field.go:58-135 | Reordering field policies that name no field twice never changes a field decision. |
| `FieldLaws.PolicyDecisionPermuted` | authorization/evaluator/field.go:105-134 | Reordering the rules of the chosen entry never changes its decision. |
| `FieldLaws.StaticEnvelope` | authorization/evaluator/field.go:30-53 | When no policy evaluation is required, every predicate matcher, even none or a failing one, gives the same error-free static decision. |
| `FieldMeaning.Precedence` | authorization/evaluator/field.go:86-104 | Which entry is chosen, among unambiguous ones: the resource's own for the field, then its `*`, then those of the resource `*` for the field and for `*`. |
| `FieldMeaning.ImproperIsRefused` | authorization/evaluator/field.go:58-64 | A request without a resource, a field or an action that is one is refused as such, whatever the policies. |
| `FieldMeaning.FirstGuardrailDecides` | authorization/evaluator/field.go:66-84 | The first guardrail on the field and action whose condition does not come out false hides the field with its key and reason, or fails the decision. |
| `FieldMeaning.UnlistedIsHidden` | authorization/evaluator/field.go:105-107 | A field no entry names is hidden. |
| `FieldMeaning.FirstRuleDecides` | authorization/evaluator/field.go:109-133 | The applicable rule of the highest priority whose condition does not come out false gives effect, key, mask strategy and audit flag, with the entry's reason. |
| `FieldMeaning.FlagsDecide` | authorization/evaluator/field.go:137-154 | When no guardrail and no rule has a say: the flag of the action decides whether the field is hidden under the key `static_field_policy`, and otherwise it is masked iff the entry is masked and the action is none of write, create and update. |
| `FieldMeaning.NeedsEvaluation` | authorization/evaluator/field.go:30-53 | Policy evaluation is required iff the request is invalid, or a guardrail or a rule of an entry on the field covers the action. |
| `Sql.EscapedPrefix` | authorization/evaluator/filter.go:222-224 | `s LIKE escape(p)% ESCAPE '\'` holds iff p is a prefix of s, for every s and p, wildcards and backslashes included. |
| `Sql.KleeneAssociative` | authorization/evaluator/filter.go:127-139 | Regrouping a run of AND or of OR changes no three-valued truth, so the reading chosen for the joined text is immaterial. |
| `Filter.CompileRecordFilter` | authorization/evaluator/filter.go:19-66 | The portable filter: allow and deny predicates in policy order, or nothing, or unrestricted. |
| `Filter.CompileGroup` | authorization/evaluator/filter.go:127-139 | Clauses joined with one separator and the arguments gathered beside them, or the first failure. |
| `Filter.CompilePredicate` | authorization/evaluator/filter.go:141-205 | The clause and arguments emitted for one predicate, or its failure. |
| `Filter.CompileSql` | authorization/evaluator/filter.go:88-125 | The whole WHERE clause with its arguments, including the never-true and the empty clause. |
| `FilterText.ReadPredicate` | authorization/evaluator/filter.go:141-205 | A compiled predicate, followed by any text and arguments, parses back to exactly its intended condition and leaves that text and those arguments. |
| `FilterText.ReadAll` | authorization/evaluator/filter.go:127-139 | An AND group is read whole before anything weaker; its children never regroup. |
| `FilterText.ClauseReadsAsIntended` | authorization/evaluator/filter.go:88-125 | Read with NOT over AND over OR, the emitted clause is the allow-and-not-deny tree of the filter, with the k-th placeholder taking the k-th argument, for any nesting. |
| `FilterMeaning.PredicateRefines` | authorization/evaluator/filter.go:141-205 | A predicate that compiles never fails to evaluate; SQL true implies it holds and SQL false that it does not, absent facts being NULL. |
| `FilterMeaning.FirmDecides` | authorization/evaluator/filter.go:164-204 | A compiled condition is unknown exactly when its two-valued reading rests on a comparison that meets a NULL or a list. |
| `FilterMeaning.SettledIsFirm` | authorization/evaluator/filter.go:164-204 | A check on the row alone, by the polarity of each comparison, suffices for that: comparisons under an even number of negations may meet NULL columns. |
| `FilterMeaning.NegatedComparisonOverNull` | authorization/evaluator/evaluator.go:171-202 | Where the two differ: for a NULL column a negated equality holds for the evaluator and is unknown in SQL. |
| `FilterMeaning.GuardrailDeniesMeaning` | authorization/evaluator/filter.go:40-48 | The guardrails compiled into the filter are silent iff those the evaluator runs are and those it skips, because they name a field, would not match. |
| `FilterMeaning.FilterDecides` | authorization/evaluator/filter.go:19-66 | Silent denies and a granting allow in the filter mean exactly an allowed record on which no field guardrail would match. |
| `FilterMeaning.SqlSelectsExactly` | authorization/evaluator/filter.go:19-205 | For every bundle, context and row: the clause selects the row iff the evaluator allows the record, no guardrail it skips would match, and the condition's reading rests on no comparison with NULL. |
| `FilterMeaning.SqlRefinesEvaluator` | authorization/evaluator/filter.go:19-205 | Hence what the clause selects, the evaluator allows without error. |
| `FilterMeaning.SqlAgreesWithEvaluator` | authorization/evaluator/filter.go:19-205 | On rows settled for every comparison's polarity, NULL columns of positive comparisons included, the clause selects a row iff the evaluator allows the record and no field guardrail would match. |
| `Translation.FilterAlways` | authorization/evaluator/filter.go:19-66 | A filter exists for every accepted bundle and every pair of identifiers, and otherwise the error is that of the bundle or of the request. |
| `Translation.TranslatesExactly` | authorization/evaluator/filter.go:141-205 | A valid predicate compiles iff it has no relation path, every fact has a column, every reference resolves, and every value suits its operator. |
| `Conditions.ComparisonRefused` | authorization/evaluator/filter.go:164-204 | A comparison with a literal fails to compile iff its fact has no column, the reason given first, or its value does not suit the operator. |
| `Conditions.GroupRefused` | authorization/evaluator/filter.go:127-139 | A group fails to compile with the reason of its first child that does. |
| `Conditions.AllowRefused` | authorization/evaluator/filter.go:92-99 | Unless all is allowed, a filter fails to compile with the reason of the first allow predicate that does. |
| `Conditions.DenyRefused` | authorization/evaluator/filter.go:100-103 | Otherwise with that of the first deny predicate that does. |
| `Translation.FilterTranslates` | authorization/evaluator/filter.go:88-125 | A filter compiles iff there is a resolver and every predicate that is emitted compiles; allow predicates of an unrestricted filter are not. |
| `Sample.SampleSelects` | authorization/evaluator/filter.go:19-205 | A small bundle meets all assumptions of these theorems for every owner, NULL included; clause and evaluator show a row iff its owner is the subject. |
| `Canonical.CanonIdempotent` | authorization/policy.go:345-370 | Canonicalising a canonical predicate changes nothing. |
| `Canonical.CanonicalFormIsComplete` | authorization/policy.go:345-411 | Two predicates have the same canonical form iff one is a recursive reordering of the other's All, Any and In lists. |
| `Canonical.CanonKeepsValidity` | authorization/policy.go:345-370 | Canonicalising keeps exactly what validation accepts. |
| `Canonical.CanonKeepsMeaning` | authorization/policy.go:345-370 | A predicate whose comparisons do not fail evaluates to the same answer once canonical, and stays free of failures. |
| `CanonicalBundle.Overwrite` | authorization/policy.go:295-311 | The loops that overwrite every entry of a cloned list by index rewrite each entry once. |
| `CanonicalBundle.CanonicalScopes` | authorization/policy.go:328-343 | The fixed list of scopes filtered by the given ones. |
| `CanonicalBundle.CanonicalPolicies` | authorization/policy.go:284-290 | Scopes and predicate of every data policy rewritten, a zero predicate left alone. |
| `CanonicalBundle.CanonicalField` | authorization/policy.go:372-395 | The rules of one field policy rewritten and sorted by descending priority, then key. |
| `CanonicalBundle.CanonicalFieldPolicies` | authorization/policy.go:291-294 | Every field policy rewritten. |
| `CanonicalBundle.CanonicalClone` | authorization/policy.go:272-326 | The canonical bundle, or the validation error. |
| `CanonicalBundle.CanonBundleValid` | authorization/policy.go:272-326 | The canonical form of a well-formed bundle is well formed. |
| `CanonicalBundle.CanonScopesValid` | authorization/policy.go:328-343 | Reordering the data scopes into the fixed order loses, repeats and invents none. |
| `CanonicalBundle.CanonicalRecords` | authorization/policy.go:272-326 | The canonical bundle's record layers allow exactly the records the original's allow. |
| `CanonicalOutput.CanonicalIsSettled` | authorization/policy.go:272-326 | The canonical bundle is a rearrangement of the bundle with every list in its order: grants, policies, entries and guardrails by their key texts, scopes in the fixed order, rules by descending priority and then key, actions and field lists by text. |
| `CanonicalOutput.CanonIsSettled` | authorization/policy.go:345-411 | All, Any and the value lists of `in` and `not_in` come out sorted at every depth of a canonical predicate. |
| `CanonicalOrder.CanonicalBundleIsComplete` | authorization/policy.go:272-326 | Two well-formed bundles have the same canonical form, hence the same serialisation, iff their headers agree and each list of one is a rearrangement of the other's with counterparts that are the same up to the order inside them. |
| `CanonicalOrder.EntriesAlike` | authorization/policy.go:272-326 | Entry by entry: equal rewritten entries are exactly those with the same scope set, recursively reordered conditions, rearranged rules with rearranged actions, and rearranged field lists. |
| `CanonicalOrder.BundleOrderIndependent` | authorization/policy.go:272-326 | Shuffling the lists of a well-formed bundle leaves its canonical form the same. |
| `CanonicalOrder.CanonBundleIdempotent` | authorization/policy.go:272-326 | The canonical form of a well-formed bundle is its own canonical form. |
| `CanonicalOrder.GrantsDecided` | authorization/policy.go:312-315 | The joined text by which grants are sorted tells any two grants of a valid bundle apart. |
| `CanonicalFields.FieldVerdictKept` | authorization/policy.go:372-395 | Every field request gets the same effect, an error for the same requests, and where no guardrail hides the field the very same decision, from the canonical bundle. |
| `CanonicalFields.CanonicalVerdict` | authorization/policy.go:272-411 | Canonicalising a whole bundle changes no allowed flag, for every record and field request. |
| `ProjectPolicy.NodeCounter.constructor` | authorization/project_roles.go:125-128 | The shared node counter starts at zero. |
| `ProjectPolicy.ValidateNode` | authorization/project_roles.go:140-179 | The recursive walk with its shared counter: verdict and final count of every subtree. |
| `ProjectPolicy.Validate` | authorization/project_roles.go:125-128 | The verdict on a whole policy. |
| `ProjectPolicy.ValidateAtMeaning` | authorization/project_roles.go:140-179 | From any depth and count, a subtree passes iff it is well formed and fits both limits; the counter then has grown by its size. |
| `ProjectPolicy.ValidationLimits` | authorization/project_roles.go:140-179 | A policy is accepted iff it is well formed, at most 8 levels deep below the root and at most 64 nodes large. |
| `ProjectPolicyForms.AcceptedExactly` | authorization/project_roles.go:140-179 | Accepted iff at most 8 levels and 64 nodes and every node, as written, is one of: `and`/`or` with children, `not` with one, `eq`/`in` with a field and the value it needs, and complete path segments. |
| `ProjectPolicyRefusals.WalkIsReading` | authorization/project_roles.go:140-179 | The recursive walk with its shared counter comes to reading the nodes one by one, parents before children, with their depth and position. |
| `ProjectPolicyRefusals.RefusedForNode` | authorization/project_roles.go:140-206 | A policy is refused for the first node in that order that is too deep, the 65th, or wrong by itself, with the code of what is wrong. |
| `ProjectPolicy.CompiledMeaning` | authorization/project_roles.go:208-236 | Whenever the predicate compiled from an accepted policy with plainly written `in` answers, it answers the policy's and/or/not/eq/in reading, whatever its relation paths would find; without paths it always answers, unless a claim spells its own reference. |
| `ProjectPolicy.CompiledValid` | authorization/project_roles.go:208-236 | The compiled predicate is valid iff every relation path leads to a name that predicates may contain, which validation of the policy does not check. |
| `ProjectPolicyNormal.Normalize` | authorization/project_roles.go:133-138 | The canonical policy, or the validation error. |
| `ProjectPolicyNormal.NormalAccepted` | authorization/project_roles.go:238-259 | A canonical policy is accepted wherever the authored one was. |
| `ProjectPolicyNormal.NormalDenotes` | authorization/project_roles.go:238-259 | Canonicalising keeps what a policy denotes, relation paths included. |
| `ProjectPolicyForms.SamePolicyMeaning` | authorization/project_roles.go:238-259 | Two policies have the same canonical form iff they are the same node by node up to letter case, surrounding space, and the order of the children of `and` and `or`. |
| `ProjectPolicyForms.NormalTwice` | authorization/project_roles.go:238-259 | The canonical form is its own canonical form and one of the spellings of the policy. |
| `ProjectPolicyNormal.NormalizedMeaning` | authorization/project_roles.go:133-236 | Normalised first, the same holds of every accepted policy, however its operators were spelled. |
| `ProjectPolicyNormal.CompilesAsValidated` | authorization/project_roles.go:230-233 | Compilation reads the raw operator, validation the trimmed one: they agree on a policy iff every `in` is written without surrounding space in letters that fold to it. |
| `ProjectPolicyNormal.SpacedInNeverMatches` | authorization/project_roles.go:230-234 | Otherwise the accepted membership test compiles to an equality that no text fact ever meets. |
| `ProjectPolicyNormal.SpacedInExample` | authorization/project_roles.go:230-234 | A concrete such policy: accepted, meant to match, compiled to something that does not. |
| `Execution.KeepLoop` | authorization/execution.go:111-116 | Everything but the target's own allows is kept, with the set of keys taken. |
| `Execution.ProjectLoop` | authorization/execution.go:117-127 | Source policies are appended under the target's name, except where their key is taken. |
| `Execution.DeriveDataPolicies` | authorization/execution.go:101-129 | The derived data policies. |
| `Execution.EnableWrite` | authorization/execution.go:78-89 | The first entry of the field gets writing, or a write-only entry is added. |
| `Execution.WriteLoop` | authorization/execution.go:68-90 | Each distinct, non-blank requested field once. |
| `Execution.AllowLoop` | authorization/execution.go:51-60 | A deny refuses, otherwise an allow is needed. |
| `Execution.DeriveExecutionAccess` | authorization/execution.go:23-95 | The derived bundle, or the first of the source's errors. |
| `ExecutionLaws.ProjectionExact` | authorization/execution.go:101-129 | The derived policies are the kept ones followed by every projected source policy iff no kept key equals a projected one. |
| `ExecutionLaws.ProjectionArrives` | authorization/execution.go:104-127 | Policy by policy: the projection of a source policy is among the derived ones iff nothing else kept there has its key. |
| `ExecutionLaws.DerivedScope` | authorization/execution.go:101-129 | For every list: a record passes the derived target's data policies iff it passes the source policies that arrive and matches no deny of the target; broader target allows contribute nothing. |
| `ExecutionLaws.CollisionLosesDeny` | authorization/execution.go:104-110 | A deny that does not arrive and matches a record hides it from the source and not from the derived target. |
| `ExecutionLaws.ProjectedScope` | authorization/execution.go:101-129 | When nothing is lost, a record passes the derived target's data policies iff it passes the source's and matches no deny of the target. |
| `ExecutionLaws.RederivationKeepsScope` | authorization/execution.go:23-95 | Deriving the same grant from the derived bundle leaves the records the target shows as they are. |
| `ExecutionLaws.ExecutionScope` | authorization/execution.go:23-95 | For whole requests on the target, whatever collides: allowed iff the guardrails are silent, the source policies that arrive pass and the target's denies are silent; all arrive when nothing is lost. |
| `ExecutionLaws.OtherRequestsUntouched` | authorization/execution.go:23-95 | Every record request on anything but the target gets the identical decision from the derived bundle. |
| `ExecutionLaws.FinalValidation` | authorization/execution.go:91-93 | For an admitted grant the final validation fails iff its resource or action is `*`. |
| `ExecutionGates.DerivedExactly` | authorization/execution.go:23-95 | A derivation succeeds iff the bundle is accepted, the names are identifiers, a named source is allowed and not denied, the target is not denied and is no wildcard; otherwise the first of these, in this order, is the error. |
| `ExecutionGates.SourceWasGranted` | authorization/execution.go:36-50 | A derivation with a source implies that the source's function gate is open in the original bundle. |
| `ExecutionGates.GrantsDerived` | authorization/execution.go:51-63 | The derived bundle's grants are the original ones and an allow of the target, nothing else. |
| `ExecutionGates.PoliciesDerived` | authorization/execution.go:64-66 | With a source other than the target: the target's own allows are gone, the source's policies are there under the target's name and their lengthened key unless a remaining policy has that key, and everything else stays. |
| `ExecutionGates.RestDerived` | authorization/execution.go:23-95 | Nothing but grants, data policies and the target's field entries changes; without a source the data policies, and without named fields the field entries, stay as they are. |
| `ExecutionFields.GrantedChoice` | authorization/execution.go:68-90 | After all requested names: a field's deciding entry is that of its own name, if requested, or else of `*`, if requested and the field has no entry of its own, with writing; of every other field, the same as before. |
| `ExecutionFields.DerivedField` | authorization/execution.go:68-95 | Every field decision under the derived bundle in terms of the original one, grants listing `*` included. |
| `ExecutionFields.GrantedFieldWrites` | authorization/execution.go:68-90 | A field under a granted name may be written unless a guardrail or a rule of that name's own entry has a say. |
| `ExecutionFields.GrantedFieldReads` | authorization/execution.go:87-89 | Reading such a field is decided as before if the granted name has the deciding entry, and is hidden if only a broader entry covered it. |
| `Sample.SampleDerives` | authorization/execution.go:23-95 | A derivation on that bundle loses nothing and meets the assumptions of the execution laws. |
| `Sample.SampleCollision` | authorization/execution.go:101-129 | A concrete bundle that hides the subject's documents from reading, and whose derived bundle lets them be sent. |
| `Restriction.Keep` | authorization/restriction.go:20-58 | The append loops keep exactly the entries their test keeps, in order. |
| `Restriction.KeepFields` | authorization/restriction.go:34-43 | Every field entry narrowed, and dropped when nothing is left of it. |
| `Restriction.RestrictAccess` | authorization/restriction.go:7-59 | The restricted bundle. |
| `Restriction.RestrictedValid` | authorization/restriction.go:7-59 | Restricting a well-formed bundle leaves it well formed. |
| `RestrictionMeaning.KeptExactly` | authorization/restriction.go:7-59 | Which entries are left, on their own fields: denies always, grants and policies in scope, references whose source may be read, exports whose resource may be exported, field entries narrowed to their scoped flags unless none is left. |
| `RestrictionMeaning.ScopesDecide` | authorization/restriction.go:9-33 | With a scope that is, trimmed, exactly the resource, a dot and the action asked for, a record request gets the identical decision; without one it is refused. |
| `RestrictionMeaning.FlagsNeedScope` | authorization/restriction.go:34-43 | Under restriction a field access the scopes do not cover is hidden by the flags, whatever they were. |
| `Restriction.RestrictionLaw` | authorization/restriction.go:19-33 | A record request in scope gets the identical decision; one out of scope is never allowed. |
| `Restriction.RestrictedChoice` | authorization/restriction.go:34-43 | For every bundle the restricted one decides a field by the narrowed copy of the same entry iff that entry is not dropped in front of a surviving other one. |
| `Restriction.NoWildcardsCover` | authorization/restriction.go:34-43 | Without wildcard field entries that never happens. |
| `Restriction.FieldRestrictionLaw` | authorization/restriction.go:34-43 | Restriction opens a field that was closed only where it uncovers a broader entry. |
| `Restriction.CoveredFieldUntouched` | authorization/restriction.go:34-43 | When the deciding entry survives and the scopes cover the access asked for, the field decision is identical. |
| `Restriction.RestrictionNeverWidens` | authorization/restriction.go:7-59 | Whatever is asked for, record or field, the restricted bundle allows something the original refuses only where it uncovers a broader entry. |
| `Restriction.WildcardUncovers` | authorization/restriction.go:34-43 | With a wildcard entry the law fails: a closed exact entry is dropped and the wildcard behind it opens the field. |
| `Restriction.RestrictionsCompose` | authorization/restriction.go:7-59 | Two restrictions commute, and repeating one changes nothing. |
| `Permission.GrantHeld` | authorization/principal.go:60-73 | Some grant of that permission allows and none denies. |
| `Permission.PolicyHeld` | authorization/principal.go:77-86 | Some data policy of that permission allows. |
| `Permission.Blocked` | authorization/principal.go:88-94 | Some unconditional record guardrail covers the permission. |
| `Permission.HasPermission` | authorization/principal.go:54-96 | The route gate's answer, malformed keys and missing bundles included. |
| `Permission.HeldKeysSplit` | authorization/principal.go:54-59 | A key is held only with a bundle, and only if it reads as a resource, a dot and an action without a dot. |
| `Permission.HeldExactly` | authorization/principal.go:54-96 | Where actions carry no dot, held iff the function is allowed and not denied, some data policy allows it and no unconditional guardrail on the record shuts it, whatever space surrounds the key and the names in the bundle. |
| `Permission.AllowedImpliesPermission` | authorization/principal.go:54-96 | Whatever record the evaluator allows, the route gate lets pass, except exactly where a deny written for another permission spells the same key or the action ends in a dot. |
| `Permission.MisreadExample` | authorization/principal.go:60-73 | Such a deny: the one of `a` for `b.c` refuses the key of `a.b` for `c`. |
| `Permission.PermissionIffVisible` | authorization/principal.go:54-96 | Where the key has one reading, the compiled filter is unrestricted or has an allow predicate iff the gate is open and no unconditional guardrail covering the permission names a field. |
| `Breaker.CircuitBreaker.constructor` | remote/circuit_breaker.go:19-21 | A fresh breaker is closed. |
| `Breaker.CircuitBreaker.Allow` | remote/circuit_breaker.go:23-38 | The answer and the new fields of one Allow. |
| `Breaker.CircuitBreaker.Observe` | remote/circuit_breaker.go:40-59 | The new fields after one Observe. |
| `Breaker.RunSummary` | remote/circuit_breaker.go:23-59 | The state after any interleaving, read off the history: failures since the last success, the last failure's time, and whether a probe was admitted since. |
| `Breaker.RunInvariant` | remote/circuit_breaker.go:23-59 | In every run: closed iff failures are below the threshold, never above it, and a probe only while open. |
| `Breaker.OpensAtThreshold` | remote/circuit_breaker.go:52-58 | The breaker goes from closed to open exactly on the threshold-th consecutive failure. |
| `Breaker.NoEarlyAllow` | remote/circuit_breaker.go:29-35 | Nothing is admitted for the open duration after the opening failure unless a call succeeds meanwhile or the clock steps back behind that failure. |
| `Breaker.AnsweredMeaning` | remote/circuit_breaker.go:23-38 | An Allow is answered yes iff fewer than threshold failures have been observed since the last success, or the open time of the last failure is over and no other call was admitted since the last Observe. |
| `Breaker.OneProbe` | remote/circuit_breaker.go:33-37 | While open, at most one call is admitted between two consecutive observations. |
| `Breaker.NeverStuck` | remote/circuit_breaker.go:23-59 | With callers that pair Allow and Observe, an active probe belongs to a call in flight, so once all have returned the breaker admits again when its time has passed. |
| `Retry.NormalRetry` | remote/config.go:41-67 | Normalised settings have at least one attempt and 0 < initial <= maximum, and valid settings are left alone. |
| `Retry.NormalBreaker` | remote/config.go:41-67 | Normalised breaker settings are positive, and valid settings are left alone. |
| `Retry.RetryDelay` | remote/retry.go:45-62 | The doubling loop with its 64-bit wrap-around, then Retry-After where there is a response, which lifts a negative wait even without the header, then the cap. |
| `Retry.BackoffIsExponential` | remote/retry.go:45-52 | The back-off is min(initial * 2^(n-1), maximum) at every attempt iff no step below the maximum reaches 2^62; otherwise some attempt gets a negative wait. |
| `Retry.SmallMaximum` | remote/retry.go:45-52 | A maximum of at most 2^62 never wraps. |
| `Retry.DelayBounds` | remote/retry.go:45-76 | Without wrap-around every wait lies between the initial and the maximal back-off and is at least the exponential one, exactly that without a response or without Retry-After. |
| `ClientLaws.Defaults` | remote/config.go:41-67 | Settings that are not positive become 2 attempts, 50 ms and 500 ms of back-off, 5 failures and 5 s; a maximum below the initial back-off becomes it. |
| `Client.DoWithHeaders` | remote/client.go:130-163 | The attempt loop: result, breaker calls in order, waits, executions and breaker state; it always returns from inside. |
| `Client.CallKeeps` | remote/client.go:136-162 | Each admitted Allow is followed by exactly one Observe, the breaker's state is explained by that trace, and executions are bounded by the attempts. |
| `Client.CallWaits` | remote/client.go:145-160 | Each wait follows an execution, precedes another attempt and is the delay of its attempt. |
| `Client.CallBounds` | remote/client.go:130-163 | At most MaxAttempts executions, at most one without replay safety, no probe left behind, every wait within the configured bounds. |
| `ClientLaws.RepeatMeaning` | remote/retry.go:12-26 | Which requests may be repeated: those spelled get, head, options or put in any case, those with an idempotency key, and the two named endpoints under any number of leading slashes. |
| `ClientLaws.RepeatsExactly` | remote/client.go:130-163 | Such a request, and no other, is sent again, and exactly as long as its answers are 429, 502, 503, 504 or repeatable transport errors, attempts are left, the wait completes and the breaker admits it; each answer is reported to the breaker as a failure iff it is a transport error or 500 and above; and the result is the last answer. |
| `ClientLaws.WaitAsAsked` | remote/retry.go:45-76 | Without wrap-around the wait is the back-off or what Retry-After asks for in seconds or until a date, whichever is longer, up to the maximum. |
| `ClientLaws.AnsweredIsLifted` | remote/retry.go:53-62 | Even after a wrap-around an answered attempt is followed by no negative wait, and by the one asked for as far as the maximum allows. |
| `ClientLaws.WaitsAsAsked` | remote/client.go:145-160 | Every wait of a whole call is that of its own attempt's answer. |
| `Callers.AloneIsTheLoop` | remote/client.go:136-163 | A call cut into its uses of the breaker, with nobody in between, comes to the result, breaker calls, waits and breaker of the whole loop. |
| `Callers.HistoryExplains` | remote/client.go:136-163 | Any number of calls taking turns in any order: the breaker is the one its whole history of events leaves, and each call's own events are its share of it. |
| `Callers.TurnsAreActions` | remote/client.go:136-144 | Such calls are a run of callers that pair every admitted Allow with one Observe, so what holds of those runs holds of the real loop. |
| `Callers.AnyInterleaving` | remote/client.go:130-163 | In every interleaving a probe belongs to a call between its Allow and its Observe, without such a call the breaker admits once closed or timed out, each call keeps its attempt limit and its delays, and has returned after at most two turns an attempt. |
| `Cache.MemoryCache.constructor` | authorization/principal/cache.go:46-48 | A new cache is empty. |
| `Cache.MemoryCache.Peek` | authorization/principal/cache.go:54-59 | The read-locked half of Get. |
| `Cache.MemoryCache.Evict` | authorization/principal/cache.go:61-65 | The write-locked half of Get removes the entry only if it is still there and expired at Get's own time. |
| `Cache.MemoryCache.Get` | authorization/principal/cache.go:50-70 | Finds exactly an unexpired entry, removes exactly an expired one, and does nothing when cancelled. |
| `Cache.MemoryCache.Set` | authorization/principal/cache.go:72-85 | Stores the entry and sweeps out everything expired by then, itself included. |
| `Cache.MemoryCache.Delete` | authorization/principal/cache.go:87-95 | Removes one key. |
| `Cache.MemoryCache.Invalidate` | authorization/principal/cache.go:97-109 | Removes the keys of one subject in one workspace, and nothing when cancelled. |
| `Cache.EntriesSurvive` | authorization/principal/cache.go:50-109 | In every interleaving an entry stays until it is set anew, deleted, invalidated or expired by the clock of the removing operation; a Get's late eviction never removes a newer unexpired entry. |
| `Cache.EntriesOriginate` | authorization/principal/cache.go:50-109 | In every interleaving each entry was there at the start or was set during the run. |
| `Cache.ContentsExactly` | authorization/principal/cache.go:50-109 | The exact contents after every interleaving: an entry is there iff it was there at the start, or was set while unexpired, and no later operation ended it. |
| `Cache.FoundExactly` | authorization/principal/cache.go:50-109 | What a Get finds after every interleaving: an unexpired entry that was there at the start or set while unexpired, and that nothing has ended. |
| `Resolver.PresentedPermissions` | authorization/principal/resolver.go:155-222 | The principal's permissions are exactly the offered ones the bundle does not deny in any letter case, each once, in order. |
| `Resolver.CollectGrants` | authorization/principal/resolver.go:160-171 | The grant loop: allowed permissions appended to the session's, denied ones gathered in lower case. |
| `Resolver.WithoutDenied` | authorization/principal/resolver.go:196-204 | The values whose trimmed lower case is not denied, in order. |
| `Resolver.UniqueSorted` | authorization/principal/resolver.go:206-222 | The non-blank trimmed values, each once, sorted. |
| `Resolver.BuildPrincipal` | authorization/principal/resolver.go:155-186 | The principal of a token, a session and a bundle. |
| `Resolver.PrincipalResolver.constructor` | authorization/principal/resolver.go:46-63 | The time to live is positive: five minutes unless a positive one is given. |
| `Resolver.PrincipalResolver.Recall` | authorization/principal/resolver.go:91-101 | A cached snapshot is used iff it is found and valid for the token now; an invalid one is deleted. |
| `Resolver.PrincipalResolver.Resolve` | authorization/principal/resolver.go:102-124 | The authority's bundle is validated and matched with the token, and stored until the earliest of the three expiries. |
| `Resolver.PrincipalResolver.Authenticate` | authorization/principal/resolver.go:65-125 | The answer of one call and everything it does to the cache. |
| `Resolver.AuthenticatedPrincipal` | authorization/principal/resolver.go:65-153 | Whatever any cache returns, a principal comes out only after this call's own session check, and it is the token's, with a bundle of its own that is valid now. |
| `ResolverLaws.RefusedAlways` | authorization/principal/resolver.go:65-90 | Whatever the cache holds, a call is refused with the first of: no token, its verification error, the session's error, a session naming another subject, workspace or user, a session of another revision; and for a session everything cached of the token's subject in its workspace is invalidated. |
| `ResolverLaws.SessionRequired` | authorization/principal/resolver.go:75-90 | An answer implies a verified token and a session of this very call whose subject, workspace, user and revision are, where given, the token's. |
| `ResolverLaws.AuthorityDecides` | authorization/principal/resolver.go:102-113 | Without a usable snapshot: the authority's error, that of an unacceptable bundle, a mismatch with the token, or the principal. |
| `ResolverLaws.PrincipalSays` | authorization/principal/resolver.go:155-186 | Field by field, whose the presented principal's values are: the token's identity, the bundle's organisation, the session's view, and the default role or the first one shown. |
| `ResolverLaws.PermissionsSay` | authorization/principal/resolver.go:160-204 | A permission is presented iff the session or an allowing grant offers it and no denying grant spells it in any letter case. |
| `ResolverLaws.RememberedExactly` | authorization/principal/resolver.go:91-124 | After a call that asked the authority, calls with the same token get its answer without asking as long as time to live, token and bundle all last; after that the authority decides anew. |
| `ResolverLaws.SnapshotMustFit` | authorization/principal/resolver.go:139-153 | A snapshot is used iff it is unexpired, of the current contract, of the token's workspace, subject and revision, and holds an acceptable bundle of that token; any other unexpired one is deleted and the authority asked. |
| `ResolverLaws.OtherTokens` | authorization/principal/resolver.go:91-141 | A call that passes its session check changes no later answer to a token that differs in workspace, subject, revision or token ID. |
| `ResolverLaws.NoSnapshot` | authorization/principal/resolver.go:91-125 | With nothing cached, or under a cancelled context, the answer is that of no cache; a cancelled call leaves the cache alone. |
| `Resolver.RefusalLasts` | authorization/principal/resolver.go:78-101 | After a refused session no other subject's entry has changed, and until a key of its subject is stored anew, whatever else runs, every call with that key is answered as if there were no cache. |
| `Resolver.Provenance` | authorization/principal/resolver.go:102-123 | In every interleaved run each cached entry is a resolution one of the calls made, under that call's key and with its bounded expiry. |
| `Resolver.BoundedStaleness` | authorization/principal/resolver.go:91-123 | An answer is the authority's of the moment, or a resolution of the same key still within the cache's time to live, the token and the bundle of the call that made it. |
| `Resolver.Transparent` | authorization/principal/resolver.go:65-125 | Over an authority that answers by the key, no run of calls makes the cache change an answer. |
| `Navigation.CleanLabels` | authorization/project_navigation.go:66-76 | The surviving labels, trimmed, by trimmed locale, with one of the values offered where locales collide. |
| `Navigation.CleanMenus` | authorization/project_navigation.go:53-77 | All menus cleaned in place and the set of their keys, or the first complaint. |
| `Navigation.CheckParents` | authorization/project_navigation.go:78-82 | The first menu whose parent is unknown or itself. |
| `Navigation.HasCycle` | authorization/project_navigation.go:88-94 | The parent walk terminates and reports whether it revisits a key. |
| `Navigation.CheckCycles` | authorization/project_navigation.go:83-95 | The first menu from which the walk revisits a key. |
| `Navigation.AcyclicIffRanked` | authorization/project_navigation.go:83-95 | The cycle check passes iff there is a rank with every parent strictly below its children. |
| `Navigation.CleanKeys` | authorization/project_navigation.go:111-122 | A role's menu keys trimmed, without repetitions, or the first unknown one. |
| `Navigation.CleanSets` | authorization/project_navigation.go:102-125 | All role menu sets cleaned in place, or the first complaint. |
| `Navigation.Normalize` | authorization/project_navigation.go:48-128 | One of the catalog's possible outcomes: the normalised catalog, or the source's first error with its arguments. |
| `NavigationLaws.Acceptance` | authorization/project_navigation.go:48-128 | However colliding locales fall, a catalog is accepted iff it is well formed: valid distinct keys, labels, known parents in a rankable hierarchy, and roles that name known menus. |
| `NavigationMeaning.KeyMeaning` | authorization/project_navigation.go:15 | The keys are the words of lower-case letters and digits joined by single dots, underscores or hyphens, starting with a letter. |
| `NavigationMeaning.AcceptedExactly` | authorization/project_navigation.go:48-128 | Said on the written texts: accepted iff the version is the current one, menu keys are keys, distinct and labelled, parents are other listed menus with falling heights, role keys are keys and distinct, and their menus are listed. |
| `NavigationMeaning.ComesOut` | authorization/project_navigation.go:96-127 | What comes out is each menu and role with its texts trimmed, each once, strictly by sort order and key, and by role key. |
| `NavigationMeaning.RefusedForMenu` | authorization/project_navigation.go:55-76 | The first menu whose key is none or taken, or that has no label, is the one complained about, with its trimmed key. |
| `NavigationMeaning.RefusedForParent` | authorization/project_navigation.go:78-82 | Else the first menu whose parent is itself or unlisted, with both keys. |
| `NavigationRefusals.RefusedForCycle` | authorization/project_navigation.go:83-95 | Else the first menu from which climbing from child to parent comes back to a key it has met. |
| `NavigationRefusals.HeightsIffNoLoop` | authorization/project_navigation.go:83-95 | No climb does so iff heights exist that fall from every menu to its parent. |
| `NavigationRefusals.RefusedForRole` | authorization/project_navigation.go:102-125 | Else the first role whose key is none or taken, or that names an unlisted menu, with the first such name. |
| `NavigationLaws.MenuKeysAsSet` | authorization/project_navigation.go:111-124 | Order, spacing and repetition of a role's menu keys do not matter. |
| `NavigationLaws.OneNormalForm` | authorization/project_navigation.go:48-128 | Two catalogs can normalise to the same one iff both are well formed and their entries are rearrangements of each other up to white space and repeated menu keys, menus sharing a value for every locale. |
| `NavigationLaws.OutcomeUnique` | authorization/project_navigation.go:66-71 | A catalog has a single possible outcome iff it is refused or no menu has two different labels for one trimmed locale; otherwise Go's map order shows in the output. |
| `NavigationLaws.OrderIndependent` | authorization/project_navigation.go:96-126 | The order of menus and role sets changes neither acceptance nor which outputs are possible. |
| `NavigationLaws.OutputOrdered` | authorization/project_navigation.go:96-126 | The output is a rearrangement of the cleaned entries: menus strictly by sort order then key, roles and their menu keys strictly in order. |
| `NavigationLaws.Idempotent` | authorization/project_navigation.go:48-128 | The output is accepted again and can only be returned unchanged. |
| `Workload.ReleaseDigest` | identity/workload_identity.go:83-103 | The digest of the canonical copy, leaving the bindings alone. |
| `Workload.RebuildActions` | identity/workload_identity.go:126-141 | Actions rebuilt from a map in any order and sorted are the trimmed actions sorted, or the first error. |
| `Workload.ProcessBinding` | identity/workload_identity.go:114-141 | One binding rewritten in its place and nothing else; a refusal leaves its names trimmed and its actions as they were. |
| `Workload.ProcessBindings` | identity/workload_identity.go:113-142 | Verdict and exact contents after the loop, half way through when a binding is refused. |
| `Workload.Validate` | identity/workload_identity.go:109-154 | Verdict and exact contents of the caller's bindings after validation. |
| `WorkloadLaws.Acceptance` | identity/workload_identity.go:109-154 | Accepted iff the release is complete, the bindings are structurally valid, and digest and release ID are those of the bindings; they are then left canonical. |
| `WorkloadMeaning.AcceptedExactly` | identity/workload_identity.go:105-154 | Said on the written texts: accepted iff the application is named and not in the default workspace, release ID and digest are there, every binding is complete with distinct actions and workflows, the digest is that of the bindings and the ID is `workflow-release:` and the digest. |
| `WorkloadMeaning.RefusedMismatch` | identity/workload_identity.go:143-154 | Sound bindings under another digest or ID are refused as a mismatch, and left canonical. |
| `WorkloadMeaning.RefusedHalfway` | identity/workload_identity.go:113-142 | Unsound bindings are refused at the first that spoils them, with its own complaint; those before it are left tidy, it is left trimmed, the rest untouched. |
| `WorkloadLaws.DigestUnchanged` | identity/workload_identity.go:109-154 | Whatever validation decides and however far it got, the digest of the bindings it leaves is the digest they had. |
| `WorkloadLaws.RoundTrip` | identity/workload_identity.go:83-154 | A request built from the digest and release ID of structurally valid bindings is accepted. |
| `WorkloadLaws.SecondValidation` | identity/workload_identity.go:109-154 | Validating an accepted request again accepts it and changes nothing. |
| `WorkloadLaws.DigestPinsBindings` | identity/workload_identity.go:83-154 | Unless the two canonical texts collide under the digest, bindings pass under another set's digest iff both have the same canonical form. |
| `WorkloadMeaning.SameCanonical` | identity/workload_identity.go:83-103 | Two sets of bindings, one without a repeated workflow, have the same digest text iff they are rearrangements of each other up to surrounding space and the order of actions. |
| `WorkloadMeaning.CanonicalMeaning` | identity/workload_identity.go:83-103 | The canonical bindings are the bindings, trimmed, with sorted actions, in the order of their workflows. |

## Left out

- Evaluator.Evaluate: numbers are rationals and strings are compared as such; the source compares through tagged strings, so a string fact beginning with `number:` or `invalid-number:` is not covered, nor are map-valued policy values. `scalarEqual` normalises only the outermost number (`authorization/evaluator/evaluator.go:376-417`), so numbers nested in list values are told apart by their Go kind there and compared as rationals here.
- FilterMeaning.SqlRefinesEvaluator: requires the allow predicates to compile even when the filter is unrestricted, because the evaluator still runs them and one that fails would refuse the record.
- FilterMeaning.SqlSelectsExactly: requires the same; column names and rows are those of the caller's resolver; no real database, collation or driver conversion is modelled.
- CanonicalFields.CanonicalVerdict: about the allowed flag of requests whose predicates do not fail; reordering may change which of several failures or denies is reported. Like FieldVerdictKept it is for bundles that name no field twice up to surrounding space, the only ones whose field order is immaterial.
- CanonicalFields.FieldVerdictKept: for the same bundles.
- CanonicalBundle.CanonicalClone: stops before JSON encoding, which enters only as the total orders by which nested lists are sorted; the cache key hashed from it is a function of this value.
- Restriction.RestrictionLaw: stated for the set of trimmed scopes, which is all the source looks at.
- Permission.PermissionIffVisible: for permissions whose key has one reading in the bundle; what a second reading does to the gate is AllowedImpliesPermission.
- FieldLaws.ChosenPolicyPermuted: for lists that name no field twice up to surrounding space; OrderMattersIffAmbiguous shows that others do depend on the order.
- ExecutionLaws.OtherRequestsUntouched: for record requests; field requests are the subject of ExecutionFields.
- Client.DoWithHeaders: the clock, the exchange and the waiting are given as data. A client without a breaker is not modelled: `retryDelay` reads the breaker's clock, so such a client would crash on its first repeated response; nor are the nil client and body size limits.
- Callers.AnyInterleaving: a fixed, arbitrarily long list of calls on one breaker, each starting whenever it first gets its turn.
- Retry.RetryDelay: header parsing is reduced to its three outcomes, and the transport error test to a flag.
- Resolver.PrincipalResolver.Authenticate: one call at a time on the heap; interleaved calls are the runs of sections of Provenance, BoundedStaleness and Transparent. Durations are not limited to 64 bits.
- Resolver.Transparent: the authority is a function of the cache key; an authority whose session or bundle changes under the same key is covered by BoundedStaleness.
- WorkloadLaws.RoundTrip: takes the digest to be 64 hexadecimal digits, as the hex encoding of SHA-256 is.
- Workload.Validate: action lists are values; that the rewritten list reuses the caller's backing array is not modelled.
- Relation paths: both interpreters refuse them here; the relation adapter is outside the repository, so meanings of authored policies are stated for every way relations may turn out.
- Text: strings are sequences of Unicode characters, so invalid UTF-8 is not modelled; lower-casing covers A to Z and the two other letters whose lower case is an ASCII letter, which is exact wherever the source compares with ASCII words.
- Deep copies: clones are the same value here, so isolation of cached or derived snapshots from later mutation is not modelled.
- AllowedReferences, ReadableFields, WritableFields, ExportableFields, AuditDenialRequired, PermissionKeys and HasAllPermissions: further readings of the same lists that would only add easier members.
- `remote/federated_callback.go`: it may return between Allow and Observe, so the pairing of Client does not extend to it.
- `remote/jwks.go`, `browsergateway`, `httpmiddleware`, `application`, `modulehost`, `organizationunit`, `authentication`, `sdk.go` and the browser client: adapters, transport and cryptography.
- `authorization/permissions.go` and `authorization/workspace_bootstrap_catalog.go`: sorting and hashing of catalogs, easier than the normalisers that are modelled.
