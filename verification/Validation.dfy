/** Validation of predicates and access bundles: the order-dependent checks of the source, and what they amount to. */
module Validation {
  import opened Wrappers
  import opened Text
  import opened Lists
  import opened Contract

  // ----- Predicates -----

  function Then(first: Check, next: Check): Check {
    if first.Fail? then first else next
  }

  predicate SegmentValid(s: RelationSegment) {
    !s.direction.OtherDirection? && !Blank(s.reference) && ValidIdentifier(s.targetResource)
  }

  function Count(b: bool): nat {
    if b then 1 else 0
  }

  predicate IsLeaf(p: Predicate) {
    !Blank(p.fact) || p.operator != NoOperator
  }

  /** Exactly one of: a leaf, a non-empty All, a non-empty Any, a Not; and a relation path only on a leaf. */
  function ShapeCheck(p: Predicate): Check {
    if IsLeaf(p) && (Blank(p.fact) || p.operator.NoOperator? || p.operator.OtherOperator?) then
      Fail("identity.policy_predicate_invalid")
    else if Count(IsLeaf(p)) + Count(p.all != []) + Count(p.anyOf != []) + Count(p.not.Some?) != 1 then
      Fail("identity.policy_predicate_invalid")
    else if p.path != [] && (|p.path| > 3 || !IsLeaf(p) || exists s | s in p.path :: !SegmentValid(s)) then
      Fail("identity.policy_relation_path_invalid")
    else
      Pass
  }

  /** `Predicate.Validate`. */
  function PredicateCheck(p: Predicate): Check
    decreases p, 1
  {
    Then(ShapeCheck(p),
    Then(PredicatesCheck(p.all),
    Then(PredicatesCheck(p.anyOf),
         if p.not.Some? then PredicateCheck(p.not.value) else Pass)))
  }

  function PredicatesCheck(ps: seq<Predicate>): Check
    decreases ps, 0
  {
    if ps == [] then Pass else Then(PredicateCheck(ps[0]), PredicatesCheck(ps[1..]))
  }

  lemma {:induction false} PredicatesCheckMeaning(ps: seq<Predicate>)
    ensures PredicatesCheck(ps).Pass? <==> forall p | p in ps :: PredicateCheck(p).Pass?
  {
    if ps == [] {
    } else {
      PredicatesCheckMeaning(ps[1..]);
      var head := PredicateCheck(ps[0]);
      assert PredicatesCheck(ps) == Then(head, PredicatesCheck(ps[1..]));
      assert ps[0] in ps;
      assert forall p | p in ps :: p == ps[0] || p in ps[1..];
      assert forall p | p in ps[1..] :: p in ps;
    }
  }

  /** A valid comparison is nothing else besides. */
  lemma ShapeOfLeaf(p: Predicate)
    requires PredicateCheck(p).Pass? && IsLeaf(p)
    ensures p.all == [] && p.anyOf == [] && p.not.None?
  {
  }

  /** `Predicate.IsZero`. */
  predicate IsZero(p: Predicate) {
    Blank(p.fact) && p.operator == NoOperator && p.value == Null && p.path == [] && p.all == [] && p.anyOf == []
        && p.not == None
  }

  // ----- One list of entries: check each, refuse a repeated key, check each further -----

  function FirstError<T, K(==)>(s: seq<T>, pre: T -> Check, key: T -> K, duplicate: string, post: T -> Check,
                           seen: set<K>): Check
  {
    if s == [] then Pass
    else if pre(s[0]).Fail? then pre(s[0])
    else if key(s[0]) in seen then Fail(duplicate)
    else if post(s[0]).Fail? then post(s[0])
    else FirstError(s[1..], pre, key, duplicate, post, seen + {key(s[0])})
  }

  /** The `seen`-map loop every list of the bundle goes through. */
  method CheckEntries<T, K(==)>(s: seq<T>, pre: T -> Check, key: T -> K, duplicate: string,
                           post: T -> Check) returns (r: Check)
    ensures r == FirstError(s, pre, key, duplicate, post, {})
  {
    var seen: set<K> := {};
    for i := 0 to |s|
      invariant FirstError(s[i..], pre, key, duplicate, post, seen) == FirstError(s, pre, key, duplicate, post, {})
    {
      assert s[i..][0] == s[i] && s[i..][1..] == s[i + 1..];
      if pre(s[i]).Fail? { return pre(s[i]); }
      if key(s[i]) in seen { return Fail(duplicate); }
      if post(s[i]).Fail? { return post(s[i]); }
      seen := seen + {key(s[i])};
    }
    return Pass;
  }

  predicate DistinctKeys<T, K(==)>(s: seq<T>, key: T -> K) {
    NoDuplicates(Map(key, s))
  }

  lemma NoKeys<T, K>(s: seq<T>, key: T -> K)
    requires s == []
    ensures DistinctKeys(s, key)
  {
  }

  lemma DistinctKeysStep<T, K>(s: seq<T>, key: T -> K)
    requires s != []
    ensures DistinctKeys(s, key) <==> DistinctKeys(s[1..], key) && forall x | x in s[1..] :: key(x) != key(s[0])
  {
    DistinctTail(key, s);
  }

  /** The loop accepts a list iff every entry passes both checks and no two entries share a key. */
  lemma {:induction false} FirstErrorMeaning<T, K>(s: seq<T>, pre: T -> Check, key: T -> K, duplicate: string,
                                                   post: T -> Check, seen: set<K>)
    ensures FirstError(s, pre, key, duplicate, post, seen).Pass? <==>
            && (forall x | x in s :: pre(x).Pass? && post(x).Pass? && key(x) !in seen)
            && DistinctKeys(s, key)
  {
    hide DistinctKeys;
    if s == [] {
      NoKeys(s, key);
    } else {
      DistinctKeysStep(s, key);
      var seen' := seen + {key(s[0])};
      FirstErrorMeaning(s[1..], pre, key, duplicate, post, seen');
      assert forall x | x in s[1..] :: x in s;
      assert forall x | x in s :: x == s[0] || x in s[1..];
    }
  }

  /** The same loop with two keys per entry, as the rules of one field have. */
  function FirstErrorOfTwo<T, K(==), L(==)>(s: seq<T>, pre: T -> Check, key: T -> K, duplicate: string, key': T -> L,
                                duplicate': string,
                                            post: T -> Check, seen: set<K>, seen': set<L>): Check
  {
    if s == [] then Pass
    else if pre(s[0]).Fail? then pre(s[0])
    else if key(s[0]) in seen then Fail(duplicate)
    else if key'(s[0]) in seen' then Fail(duplicate')
    else if post(s[0]).Fail? then post(s[0])
    else FirstErrorOfTwo(s[1..], pre, key, duplicate, key', duplicate', post, seen + {key(s[0])}, seen' + {key'(s[0])})
  }

  lemma {:induction false} FirstErrorOfTwoMeaning<T, K, L>(s: seq<T>, pre: T -> Check, key: T -> K, duplicate: string,
                                                           key': T -> L, duplicate': string,
                                                          post: T -> Check, seen: set<K>, seen': set<L>)
    ensures FirstErrorOfTwo(s, pre, key, duplicate, key', duplicate', post, seen, seen').Pass? <==>
            && (forall x | x in s :: pre(x).Pass? && post(x).Pass? && key(x) !in seen && key'(x) !in seen')
            && DistinctKeys(s, key) && DistinctKeys(s, key')
  {
    hide DistinctKeys;
    if s == [] {
      NoKeys(s, key);
      NoKeys(s, key');
    } else {
      DistinctKeysStep(s, key);
      DistinctKeysStep(s, key');
      FirstErrorOfTwoMeaning(s[1..], pre, key, duplicate, key', duplicate', post, seen + {key(s[0])},
          seen' + {key'(s[0])});
      assert forall x | x in s[1..] :: x in s;
      assert forall x | x in s :: x == s[0] || x in s[1..];
    }
  }

  // ----- The lists of the bundle -----

  function NoFurtherCheck<T>(x: T): Check {
    Pass
  }

  function Require(ok: bool, code: string): Check {
    if ok then Pass else Fail(code)
  }

  predicate UniqueNonBlank(values: seq<string>) {
    (forall v | v in values :: !Blank(v)) && NoDuplicates(Map(Trim, values))
  }

  predicate UniqueIdentifiers(values: seq<string>) {
    (forall v | v in values :: ValidIdentifier(v)) && NoDuplicates(values)
  }

  function GrantCheck(g: FunctionGrant): Check {
    Require(ValidIdentifier(g.resource) && ValidIdentifier(g.action) && g.resource != "*" && g.action != "*"
        && !g.effect.OtherEffect?,
            "identity.function_grant_invalid")
  }

  /** The source joins the parts with a NUL, which no valid identifier contains. */
  function GrantKey(g: FunctionGrant): (string, string, Effect) {
    (g.resource, g.action, g.effect)
  }

  function ScopeCheck(s: DataScope): Check {
    Require(!s.OtherScope?, "identity.data_policy_scope_invalid")
  }

  function ScopeKey(s: DataScope): DataScope {
    s
  }

  function DataCheck(p: DataPolicy): Check {
    if Blank(p.key) || !ValidIdentifier(p.resource) || p.resource == "*" || !ValidIdentifier(p.action)
        || p.effect.OtherEffect? then
      Fail("identity.data_policy_invalid")
    else
      FirstError(p.dataScopes, ScopeCheck, ScopeKey, "identity.data_policy_scope_duplicate", NoFurtherCheck, {})
  }

  function DataKey(p: DataPolicy): string {
    p.key
  }

  /** `all` is the absence of a predicate, never an always-true one. */
  function DataFurtherCheck(p: DataPolicy): Check {
    if ScopeAll in p.dataScopes then
      Require(p.effect == Allow && |p.dataScopes| == 1 && IsZero(p.condition), "identity.data_policy_scope_invalid")
    else
      PredicateCheck(p.condition)
  }

  predicate ActionsValid(actions: seq<string>) {
    actions != [] && UniqueIdentifiers(actions)
  }

  function MaskCheck(r: FieldRule): Check {
    if r.effect != FieldMask then
      Require(r.maskStrategy.None?, "identity.field_rule_mask_invalid")
    else if r.maskStrategy.None? then
      Fail("identity.field_rule_mask_required")
    else
      match r.maskStrategy.value.kind
      case OtherMask(_) => Fail("identity.field_rule_mask_invalid")
      case MaskLastN => Require(1 <= r.maskStrategy.value.lastN <= 32, "identity.field_rule_mask_invalid")
      case _ => Require(r.maskStrategy.value.lastN == 0, "identity.field_rule_mask_invalid")
  }

  function OptionalPredicateCheck(p: Option<Predicate>): Check {
    if p.Some? then PredicateCheck(p.value) else Pass
  }

  function RuleCheck(r: FieldRule): Check {
    Require(!Blank(r.key) && !r.effect.NoFieldEffect? && !r.effect.OtherFieldEffect? && ActionsValid(r.actions),
            "identity.field_rule_invalid")
  }

  function RuleKey(r: FieldRule): string {
    r.key
  }

  function RulePriority(r: FieldRule): int {
    r.priority
  }

  function RuleFurtherCheck(r: FieldRule): Check {
    Then(OptionalPredicateCheck(r.condition), MaskCheck(r))
  }

  function RulesCheck(rules: seq<FieldRule>): Check {
    FirstErrorOfTwo(rules, RuleCheck, RuleKey, "identity.field_rule_duplicate", RulePriority,
        "identity.field_rule_priority_duplicate",
                    RuleFurtherCheck, {}, {})
  }

  function FieldCheck(p: FieldPolicy): Check {
    Require(ValidIdentifier(p.resource) && !Blank(p.field), "identity.field_policy_invalid")
  }

  function FieldKey(p: FieldPolicy): (string, string) {
    (p.resource, p.field)
  }

  function FieldFurtherCheck(p: FieldPolicy): Check {
    RulesCheck(p.rules)
  }

  function ReferenceCheck(p: ReferencePolicy): Check {
    Require(ValidIdentifier(p.sourceResource) && !Blank(p.reference) && ValidIdentifier(p.targetResource)
        && UniqueNonBlank(p.displayFields),
            "identity.reference_policy_invalid")
  }

  function ReferenceKey(p: ReferencePolicy): (string, string) {
    (p.sourceResource, p.reference)
  }

  function ExportCheck(p: ExportPolicy): Check {
    Require(
      && ValidIdentifier(p.resource) && !p.mode.OtherExportMode? && UniqueNonBlank(p.fields)
      && !(p.mode.ExportDeny? && p.fields != []),
      "identity.export_policy_invalid")
  }

  function ExportKey(p: ExportPolicy): string {
    p.resource
  }

  function GuardrailCheck(g: Guardrail): Check {
    Require(
      && !Blank(g.key) && g.effect == Deny
      && !(g.resource == "" && (g.action != "" || !Blank(g.field) || g.condition.Some?))
      && !(!Blank(g.field) && g.action == ""),
      "identity.guardrail_invalid")
  }

  function GuardrailKey(g: Guardrail): string {
    g.key
  }

  function GuardrailFurtherCheck(g: Guardrail): Check {
    OptionalPredicateCheck(g.condition)
  }

  // ----- The bundle -----

  function HeaderCheck(b: AccessBundle, now: int): Check {
    if b.contractVersion != CURRENT_POLICY_BUNDLE_VERSION then Fail("identity.access_bundle_version_unsupported")
    else if !ValidIdentifier(b.authorizationRevision) || !ValidWorkspace(b.subject.workspaceId)
        || !ValidIdentifier(b.subject.subjectId) then
      Fail("identity.access_bundle_identity_invalid")
    else if !UniqueNonBlank(b.subject.orgScopeIds) || !UniqueIdentifiers(b.subject.reportingScopeUserIds) then
      Fail("identity.access_bundle_scope_invalid")
    else if b.expiresAt.None? || b.expiresAt.value <= now then
      Fail("identity.access_bundle_expired")
    else
      Pass
  }

  function GrantsCheck(s: seq<FunctionGrant>): Check {
    FirstError(s, GrantCheck, GrantKey, "identity.function_grant_duplicate", NoFurtherCheck, {})
  }

  function DataPoliciesCheck(s: seq<DataPolicy>): Check {
    FirstError(s, DataCheck, DataKey, "identity.data_policy_duplicate", DataFurtherCheck, {})
  }

  function FieldPoliciesCheck(s: seq<FieldPolicy>): Check {
    FirstError(s, FieldCheck, FieldKey, "identity.field_policy_duplicate", FieldFurtherCheck, {})
  }

  function ReferencesCheck(s: seq<ReferencePolicy>): Check {
    FirstError(s, ReferenceCheck, ReferenceKey, "identity.reference_policy_duplicate", NoFurtherCheck, {})
  }

  function ExportsCheck(s: seq<ExportPolicy>): Check {
    FirstError(s, ExportCheck, ExportKey, "identity.export_policy_duplicate", NoFurtherCheck, {})
  }

  function GuardrailsCheck(s: seq<Guardrail>): Check {
    FirstError(s, GuardrailCheck, GuardrailKey, "identity.guardrail_duplicate", GuardrailFurtherCheck, {})
  }

  /** `AccessBundle.Validate`: the first check that fails, in the source's order. */
  function BundleCheck(b: AccessBundle, now: int): Check {
    Then(HeaderCheck(b, now),
    Then(GrantsCheck(b.functionGrants),
    Then(DataPoliciesCheck(b.dataPolicies),
    Then(FieldPoliciesCheck(b.fieldPolicies),
    Then(ReferencesCheck(b.referencePolicies),
    Then(ExportsCheck(b.exportPolicies),
         GuardrailsCheck(b.guardrails)))))))
  }

  /** The data-policy loop, with the loop over each policy's scopes inside it. */
  method CheckDataPolicies(ps: seq<DataPolicy>) returns (r: Check)
    ensures r == DataPoliciesCheck(ps)
  {
    hide Blank, ValidIdentifier, DataFurtherCheck;
    var seen: set<string> := {};
    for i := 0 to |ps|
      invariant FirstError(ps[i..], DataCheck, DataKey, "identity.data_policy_duplicate", DataFurtherCheck, seen)
             == DataPoliciesCheck(ps)
    {
      var p := ps[i];
      assert ps[i..][0] == p && ps[i..][1..] == ps[i + 1..];
      if Blank(p.key) || !ValidIdentifier(p.resource) || p.resource == "*" || !ValidIdentifier(p.action)
         || p.effect.OtherEffect? {
        return Fail("identity.data_policy_invalid");
      }
      r := CheckEntries(p.dataScopes, ScopeCheck, ScopeKey, "identity.data_policy_scope_duplicate", NoFurtherCheck);
      if r.Fail? { return; }
      if p.key in seen { return Fail("identity.data_policy_duplicate"); }
      seen := seen + {p.key};
      r := DataFurtherCheck(p);
      if r.Fail? { return; }
    }
    return Pass;
  }

  /** The loop over the rules of one field policy, with its two `seen` maps. */
  method CheckRules(rules: seq<FieldRule>) returns (r: Check)
    ensures r == RulesCheck(rules)
  {
    hide RuleCheck, RuleFurtherCheck;
    var keys: set<string>, priorities: set<int> := {}, {};
    for i := 0 to |rules|
      invariant FirstErrorOfTwo(rules[i..], RuleCheck, RuleKey, "identity.field_rule_duplicate", RulePriority,
                                "identity.field_rule_priority_duplicate", RuleFurtherCheck, keys, priorities)
             == RulesCheck(rules)
    {
      var rule := rules[i];
      assert rules[i..][0] == rule && rules[i..][1..] == rules[i + 1..];
      r := RuleCheck(rule);
      if r.Fail? { return; }
      if rule.key in keys { return Fail("identity.field_rule_duplicate"); }
      if rule.priority in priorities { return Fail("identity.field_rule_priority_duplicate"); }
      keys, priorities := keys + {rule.key}, priorities + {rule.priority};
      r := RuleFurtherCheck(rule);
      if r.Fail? { return; }
    }
    return Pass;
  }

  /** The field-policy loop. */
  method CheckFieldPolicies(ps: seq<FieldPolicy>) returns (r: Check)
    ensures r == FieldPoliciesCheck(ps)
  {
    hide RulesCheck, FieldCheck;
    var seen: set<(string, string)> := {};
    for i := 0 to |ps|
      invariant FirstError(ps[i..], FieldCheck, FieldKey, "identity.field_policy_duplicate", FieldFurtherCheck, seen)
             == FieldPoliciesCheck(ps)
    {
      var p := ps[i];
      assert ps[i..][0] == p && ps[i..][1..] == ps[i + 1..];
      r := FieldCheck(p);
      if r.Fail? { return; }
      if (p.resource, p.field) in seen { return Fail("identity.field_policy_duplicate"); }
      seen := seen + {(p.resource, p.field)};
      r := CheckRules(p.rules);
      if r.Fail? { return; }
    }
    return Pass;
  }

  /** `AccessBundle.Validate`, with its `seen`-map loops. */
  method Validate(b: AccessBundle, now: int) returns (r: Check)
    ensures r == BundleCheck(b, now)
  {
    r := HeaderCheck(b, now);
    if r.Fail? { return; }
    r := CheckEntries(b.functionGrants, GrantCheck, GrantKey, "identity.function_grant_duplicate", NoFurtherCheck);
    if r.Fail? { return; }
    r := CheckDataPolicies(b.dataPolicies);
    if r.Fail? { return; }
    r := CheckFieldPolicies(b.fieldPolicies);
    if r.Fail? { return; }
    r := CheckEntries(b.referencePolicies, ReferenceCheck, ReferenceKey, "identity.reference_policy_duplicate",
        NoFurtherCheck);
    if r.Fail? { return; }
    r := CheckEntries(b.exportPolicies, ExportCheck, ExportKey, "identity.export_policy_duplicate", NoFurtherCheck);
    if r.Fail? { return; }
    r := CheckEntries(b.guardrails, GuardrailCheck, GuardrailKey, "identity.guardrail_duplicate",
        GuardrailFurtherCheck);
  }

  // ----- What an accepted bundle looks like -----

  predicate GrantValid(g: FunctionGrant) {
    ValidIdentifier(g.resource) && ValidIdentifier(g.action) && g.resource != "*" && g.action != "*"
        && !g.effect.OtherEffect?
  }

  predicate DataPolicyValid(p: DataPolicy) {
    && !Blank(p.key) && ValidIdentifier(p.resource) && p.resource != "*" && ValidIdentifier(p.action)
        && !p.effect.OtherEffect?
    && (forall s | s in p.dataScopes :: !s.OtherScope?) && NoDuplicates(p.dataScopes)
    && (if ScopeAll in p.dataScopes then p.effect == Allow && p.dataScopes == [ScopeAll] && IsZero(p.condition)
        else PredicateCheck(p.condition).Pass?)
  }

  predicate RuleValid(r: FieldRule) {
    RuleCheck(r).Pass? && RuleFurtherCheck(r).Pass?
  }

  predicate FieldPolicyValid(p: FieldPolicy) {
    && FieldCheck(p).Pass?
    && (forall r | r in p.rules :: RuleValid(r)) && DistinctKeys(p.rules, RuleKey)
        && DistinctKeys(p.rules, RulePriority)
  }

  predicate GuardrailValid(g: Guardrail) {
    GuardrailCheck(g).Pass? && GuardrailFurtherCheck(g).Pass?
  }

  /** Every entry is valid on its own and no list repeats a key; the order of the lists plays no part. */
  predicate WellFormed(b: AccessBundle, now: int) {
    && HeaderCheck(b, now).Pass?
    && (forall g | g in b.functionGrants :: GrantValid(g)) && DistinctKeys(b.functionGrants, GrantKey)
    && (forall p | p in b.dataPolicies :: DataPolicyValid(p)) && DistinctKeys(b.dataPolicies, DataKey)
    && (forall p | p in b.fieldPolicies :: FieldPolicyValid(p)) && DistinctKeys(b.fieldPolicies, FieldKey)
    && (forall p | p in b.referencePolicies :: ReferenceCheck(p).Pass?)
        && DistinctKeys(b.referencePolicies, ReferenceKey)
    && (forall p | p in b.exportPolicies :: ExportCheck(p).Pass?) && DistinctKeys(b.exportPolicies, ExportKey)
    && (forall g | g in b.guardrails :: GuardrailValid(g)) && DistinctKeys(b.guardrails, GuardrailKey)
  }

  lemma DataPolicyValidity(p: DataPolicy)
    ensures DataCheck(p).Pass? && DataFurtherCheck(p).Pass? <==> DataPolicyValid(p)
  {
    FirstErrorMeaning(p.dataScopes, ScopeCheck, ScopeKey, "identity.data_policy_scope_duplicate", NoFurtherCheck, {});
    assert Map(ScopeKey, p.dataScopes) == p.dataScopes;
  }

  lemma FieldPolicyValidity(p: FieldPolicy)
    ensures FieldCheck(p).Pass? && FieldFurtherCheck(p).Pass? <==> FieldPolicyValid(p)
  {
    FirstErrorOfTwoMeaning(p.rules, RuleCheck, RuleKey, "identity.field_rule_duplicate", RulePriority,
                           "identity.field_rule_priority_duplicate", RuleFurtherCheck, {}, {});
  }

  /** Validation accepts exactly the well-formed bundles. */
  lemma ValidationMeaning(b: AccessBundle, now: int)
    ensures BundleCheck(b, now).Pass? <==> WellFormed(b, now)
  {
    hide DistinctKeys, FirstError, HeaderCheck, DataPolicyValid, FieldPolicyValid, DataCheck, DataFurtherCheck,
      FieldCheck, FieldFurtherCheck,
      GuardrailCheck, GuardrailFurtherCheck, ReferenceCheck, ExportCheck, ValidIdentifier;
    FirstErrorMeaning(b.functionGrants, GrantCheck, GrantKey, "identity.function_grant_duplicate", NoFurtherCheck, {});
    FirstErrorMeaning(b.dataPolicies, DataCheck, DataKey, "identity.data_policy_duplicate", DataFurtherCheck, {});
    FirstErrorMeaning(b.fieldPolicies, FieldCheck, FieldKey, "identity.field_policy_duplicate", FieldFurtherCheck, {});
    FirstErrorMeaning(b.referencePolicies, ReferenceCheck, ReferenceKey, "identity.reference_policy_duplicate",
        NoFurtherCheck, {});
    FirstErrorMeaning(b.exportPolicies, ExportCheck, ExportKey, "identity.export_policy_duplicate", NoFurtherCheck, {});
    FirstErrorMeaning(b.guardrails, GuardrailCheck, GuardrailKey, "identity.guardrail_duplicate",
        GuardrailFurtherCheck, {});
    forall p: DataPolicy {
      DataPolicyValidity(p);
    }
    forall p: FieldPolicy {
      FieldPolicyValidity(p);
    }
  }

  lemma {:induction false} FilterKeys<T(!new), K>(keep: T -> bool, key: T -> K, s: seq<T>)
    requires DistinctKeys(s, key)
    ensures DistinctKeys(Filter(keep, s), key)
  {
    hide DistinctKeys;
    if s == [] {
      NoKeys(Filter(keep, s), key);
    } else {
      DistinctKeysStep(s, key);
      FilterKeys(keep, key, s[1..]);
      var f := Filter(keep, s);
      if keep(s[0]) {
        assert f[0] == s[0] && f[1..] == Filter(keep, s[1..]);
        DistinctKeysStep(f, key);
      } else {
        assert f == Filter(keep, s[1..]);
      }
    }
  }

  lemma HeaderKept(b: AccessBundle, d: AccessBundle, now: int)
    requires d.contractVersion == b.contractVersion && d.authorizationRevision == b.authorizationRevision
               && d.subject == b.subject && d.expiresAt == b.expiresAt
    ensures HeaderCheck(d, now) == HeaderCheck(b, now)
  {
  }

  lemma WellFormedPolicies(b: AccessBundle, now: int)
    requires BundleCheck(b, now).Pass?
    ensures DistinctKeys(b.dataPolicies, DataKey) && forall p | p in b.dataPolicies :: DataPolicyValid(p)
    ensures forall x | x in b.functionGrants :: GrantValid(x)
  {
    hide DistinctKeys, DataPolicyValid, GrantValid, BundleCheck, HeaderCheck, FieldPolicyValid, GuardrailValid,
      ReferenceCheck, ExportCheck;
    ValidationMeaning(b, now);
  }

  lemma EffectsKnown(b: AccessBundle, now: int)
    requires BundleCheck(b, now).Pass?
    ensures forall g | g in b.functionGrants :: g.effect in {Allow, Deny}
    ensures forall p | p in b.dataPolicies :: p.resource != "*" && p.effect in {Allow, Deny}
  {
    WellFormedPolicies(b, now);
    hide BundleCheck, ValidIdentifier, PredicateCheck, NoDuplicates, IsZero, Blank, DistinctKeys;
  }

  lemma KeyDetermines<T, K>(s: seq<T>, key: T -> K, x: T, y: T)
    requires DistinctKeys(s, key) && x in s && y in s && key(x) == key(y)
    ensures x == y
  {
    var i :| 0 <= i < |s| && s[i] == x;
    var j :| 0 <= j < |s| && s[j] == y;
    assert Map(key, s)[i] == Map(key, s)[j];
  }
}
