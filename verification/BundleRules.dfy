/** The rules an access bundle is accepted by, written out on its own fields. */
module BundleRules {
  import opened Wrappers
  import opened Text
  import opened Lists
  import opened Contract
  import opened Validation

  // ----- Texts -----

  /** Some text besides white space. */
  predicate Named(s: string) {
    exists i | 0 <= i < |s| :: !IsSpace(s[i])
  }

  lemma {:induction false} NamedMeaning(s: string)
    ensures Named(s) <==> !Blank(s)
  {
    if s != "" {
      NamedMeaning(s[1..]);
      NamedMeaning(s[..|s| - 1]);
      if Named(s) {
        var i :| 0 <= i < |s| && !IsSpace(s[i]);
        assert i > 0 ==> s[1..][i - 1] == s[i];
        assert i < |s| - 1 ==> s[..|s| - 1][i] == s[i];
      }
    }
  }

  /** No two entries of the list agree in the key. */
  ghost predicate Once<T, K>(s: seq<T>, key: T -> K) {
    forall i, j | 0 <= i < j < |s| :: key(s[i]) != key(s[j])
  }

  lemma OnceMeaning<T, K>(s: seq<T>, key: T -> K, other: T -> K)
    requires forall x | x in s :: key(x) == other(x)
    ensures Once(s, key) <==> DistinctKeys(s, other)
  {
    var ks := Map(other, s);
    assert forall i | 0 <= i < |s| :: s[i] in s && ks[i] == key(s[i]);
    if DistinctKeys(s, other) {
      forall i, j | 0 <= i < j < |s|
        ensures key(s[i]) != key(s[j])
      {
        assert ks[i] != ks[j];
      }
    }
  }

  // ----- Predicates -----

  predicate SegmentRule(s: RelationSegment) {
    (s.direction == Forward || s.direction == Reverse) && Named(s.reference) && ValidIdentifier(s.targetResource)
  }

  /** A comparison of a named fact, across at most three relations; or a group that holds nothing but its children. */
  predicate PredicateRule(p: Predicate)
    decreases p
  {
    var comparison := Named(p.fact) && p.operator in {Eq, Neq, In, NotIn, Exists, Prefix};
    var bare := !Named(p.fact) && p.operator == NoOperator && p.path == [];
    || (comparison && p.all == [] && p.anyOf == [] && p.not == None && |p.path| <= 3
        && forall s | s in p.path :: SegmentRule(s))
    || (bare && p.all != [] && p.anyOf == [] && p.not == None && forall q | q in p.all :: PredicateRule(q))
    || (bare && p.all == [] && p.anyOf != [] && p.not == None && forall q | q in p.anyOf :: PredicateRule(q))
    || (bare && p.all == [] && p.anyOf == [] && p.not.Some? && PredicateRule(p.not.value))
  }

  lemma SegmentRuleMeaning(s: RelationSegment)
    ensures SegmentRule(s) <==> SegmentValid(s)
  {
    NamedMeaning(s.reference);
    hide ValidIdentifier, Named, Blank;
  }

  lemma ShapeMeaning(p: Predicate)
    ensures var comparison := Named(p.fact) && p.operator in {Eq, Neq, In, NotIn, Exists, Prefix};
            var bare := !Named(p.fact) && p.operator == NoOperator && p.path == [];
            ShapeCheck(p).Pass? <==>
              || (comparison && p.all == [] && p.anyOf == [] && p.not == None && |p.path| <= 3
                  && forall s | s in p.path :: SegmentRule(s))
              || (bare && p.all != [] && p.anyOf == [] && p.not == None)
              || (bare && p.all == [] && p.anyOf != [] && p.not == None)
              || (bare && p.all == [] && p.anyOf == [] && p.not.Some?)
  {
    NamedMeaning(p.fact);
    forall s | s in p.path
      ensures SegmentRule(s) <==> SegmentValid(s)
    {
      SegmentRuleMeaning(s);
    }
    hide Named, Blank, SegmentRule, SegmentValid;
  }

  lemma {:induction false} PredicateRuleMeaning(p: Predicate)
    ensures PredicateRule(p) <==> PredicateCheck(p).Pass?
    decreases p
  {
    ShapeMeaning(p);
    PredicatesCheckMeaning(p.all);
    PredicatesCheckMeaning(p.anyOf);
    forall q | q in p.all || q in p.anyOf || p.not == Some(q)
      ensures PredicateRule(q) <==> PredicateCheck(q).Pass?
    {
      PredicateRuleMeaning(q);
    }
    hide Named, ShapeCheck, SegmentRule, PredicatesCheck;
  }

  predicate ConditionRule(c: Option<Predicate>) {
    c.Some? ==> PredicateRule(c.value)
  }

  // ----- The header -----

  /** Named entries, no two alike once trimmed. */
  ghost predicate NamesRule(names: seq<string>) {
    && (forall v | v in names :: Named(v))
    && (forall i, j | 0 <= i < j < |names| :: Trim(names[i]) != Trim(names[j]))
  }

  ghost predicate IdentifiersRule(ids: seq<string>) {
    && (forall v | v in ids :: ValidIdentifier(v))
    && (forall i, j | 0 <= i < j < |ids| :: ids[i] != ids[j])
  }

  lemma NamesRuleMeaning(names: seq<string>)
    ensures NamesRule(names) <==> UniqueNonBlank(names)
  {
    hide Trim, Named, Blank;
    forall v | v in names
      ensures Named(v) <==> !Blank(v)
    {
      NamedMeaning(v);
    }
    OnceMeaning(names, Trim, Trim);
  }

  ghost predicate HeaderRule(b: AccessBundle, now: int) {
    && b.contractVersion == "domainry-identity-access-bundle-v6"
    && ValidIdentifier(b.authorizationRevision) && ValidIdentifier(b.subject.subjectId)
    && ValidIdentifier(b.subject.workspaceId) && Lower(Trim(b.subject.workspaceId)) != "default"
    && NamesRule(b.subject.orgScopeIds) && IdentifiersRule(b.subject.reportingScopeUserIds)
    && b.expiresAt.Some? && now < b.expiresAt.value
  }

  lemma HeaderRuleMeaning(b: AccessBundle, now: int)
    ensures HeaderRule(b, now) <==> HeaderCheck(b, now).Pass?
  {
    NamesRuleMeaning(b.subject.orgScopeIds);
    hide NamesRule, UniqueNonBlank, ValidIdentifier, Trim, Lower;
  }

  // ----- The lists -----

  predicate EffectRule(e: Effect) {
    e == Allow || e == Deny
  }

  predicate GrantRule(g: FunctionGrant) {
    && ValidIdentifier(g.resource) && g.resource != "*" && ValidIdentifier(g.action) && g.action != "*"
    && EffectRule(g.effect)
  }

  /** Scopes of the known kinds, each once; a policy on everything is an allow without a condition. */
  ghost predicate DataRule(p: DataPolicy) {
    && Named(p.key) && ValidIdentifier(p.resource) && p.resource != "*" && ValidIdentifier(p.action)
    && EffectRule(p.effect)
    && (forall s | s in p.dataScopes :: s in {ScopeAll, ScopeOwner, ScopeOrg, ScopeOrgChild, ScopeTargetOrg})
    && (forall i, j | 0 <= i < j < |p.dataScopes| :: p.dataScopes[i] != p.dataScopes[j])
    && if ScopeAll in p.dataScopes then
         |p.dataScopes| == 1 && p.effect == Allow && Unconditional(p.condition)
       else PredicateRule(p.condition)
  }

  /** No condition at all. */
  predicate Unconditional(p: Predicate) {
    !Named(p.fact) && p == ZERO_PREDICATE.(fact := p.fact)
  }

  predicate MaskRule(m: MaskStrategy) {
    match m.kind
    case OtherMask(_) => false
    case MaskLastN => 1 <= m.lastN <= 32
    case _ => m.lastN == 0
  }

  /** A named rule on some valid actions, whose strategy is there exactly when it masks. */
  ghost predicate RuleRule(r: FieldRule) {
    && Named(r.key) && r.effect in {FieldAllow, FieldDeny, FieldHide, FieldMask}
    && r.actions != [] && IdentifiersRule(r.actions) && ConditionRule(r.condition)
    && (r.maskStrategy.Some? <==> r.effect == FieldMask) && (r.maskStrategy.Some? ==> MaskRule(r.maskStrategy.value))
  }

  ghost predicate FieldRules(p: FieldPolicy) {
    && ValidIdentifier(p.resource) && Named(p.field)
    && (forall r | r in p.rules :: RuleRule(r))
    && Once(p.rules, (r: FieldRule) => r.key) && Once(p.rules, (r: FieldRule) => r.priority)
  }

  ghost predicate ReferenceRule(p: ReferencePolicy) {
    && ValidIdentifier(p.sourceResource) && Named(p.reference) && ValidIdentifier(p.targetResource)
    && NamesRule(p.displayFields)
  }

  ghost predicate ExportRule(p: ExportPolicy) {
    && ValidIdentifier(p.resource) && NamesRule(p.fields)
    && (p.mode == ExportAllowList || (p.mode == ExportDeny && p.fields == []))
  }

  /** A named deny: on everything and nothing else, or on a resource; a field needs an action. */
  ghost predicate GuardrailRule(g: Guardrail) {
    && Named(g.key) && g.effect == Deny
    && (g.resource == "" ==> g.action == "" && !Named(g.field) && g.condition == None)
    && (Named(g.field) ==> g.action != "")
    && ConditionRule(g.condition)
  }

  ghost predicate Acceptable(b: AccessBundle, now: int) {
    && HeaderRule(b, now)
    && (forall g | g in b.functionGrants :: GrantRule(g))
    && Once(b.functionGrants, (g: FunctionGrant) => (g.resource, g.action, g.effect))
    && (forall p | p in b.dataPolicies :: DataRule(p)) && Once(b.dataPolicies, (p: DataPolicy) => p.key)
    && (forall p | p in b.fieldPolicies :: FieldRules(p))
    && Once(b.fieldPolicies, (p: FieldPolicy) => (p.resource, p.field))
    && (forall p | p in b.referencePolicies :: ReferenceRule(p))
    && Once(b.referencePolicies, (p: ReferencePolicy) => (p.sourceResource, p.reference))
    && (forall p | p in b.exportPolicies :: ExportRule(p)) && Once(b.exportPolicies, (p: ExportPolicy) => p.resource)
    && (forall g | g in b.guardrails :: GuardrailRule(g)) && Once(b.guardrails, (g: Guardrail) => g.key)
  }

  lemma DataRuleMeaning(p: DataPolicy)
    ensures DataRule(p) <==> DataPolicyValid(p)
  {
    NamedMeaning(p.key);
    NamedMeaning(p.condition.fact);
    PredicateRuleMeaning(p.condition);
    hide Named, Blank, PredicateRule, PredicateCheck, ValidIdentifier;
    if ScopeAll in p.dataScopes && |p.dataScopes| == 1 {
      assert p.dataScopes == [ScopeAll];
    }
  }

  lemma ConditionMeaning(c: Option<Predicate>)
    ensures ConditionRule(c) <==> OptionalPredicateCheck(c).Pass?
  {
    if c.Some? {
      PredicateRuleMeaning(c.value);
    }
    hide PredicateRule, PredicateCheck;
  }

  lemma RuleRuleMeaning(r: FieldRule)
    ensures RuleRule(r) <==> RuleValid(r)
  {
    NamedMeaning(r.key);
    ConditionMeaning(r.condition);
    hide Named, Blank, ConditionRule, OptionalPredicateCheck, ValidIdentifier;
  }

  lemma FieldRulesMeaning(p: FieldPolicy)
    ensures FieldRules(p) <==> FieldPolicyValid(p)
  {
    NamedMeaning(p.field);
    hide Named, Blank, RuleRule, RuleValid, ValidIdentifier, DistinctKeys, Once;
    forall r | r in p.rules
      ensures RuleRule(r) <==> RuleValid(r)
    {
      RuleRuleMeaning(r);
    }
    OnceMeaning(p.rules, (r: FieldRule) => r.key, RuleKey);
    OnceMeaning(p.rules, (r: FieldRule) => r.priority, RulePriority);
  }

  lemma ReferenceRuleMeaning(p: ReferencePolicy)
    ensures ReferenceRule(p) <==> ReferenceCheck(p).Pass?
  {
    NamedMeaning(p.reference);
    NamesRuleMeaning(p.displayFields);
    hide Named, Blank, NamesRule, UniqueNonBlank, ValidIdentifier;
  }

  lemma ExportRuleMeaning(p: ExportPolicy)
    ensures ExportRule(p) <==> ExportCheck(p).Pass?
  {
    NamesRuleMeaning(p.fields);
    hide NamesRule, UniqueNonBlank, ValidIdentifier;
  }

  lemma GuardrailRuleMeaning(g: Guardrail)
    ensures GuardrailRule(g) <==> GuardrailValid(g)
  {
    NamedMeaning(g.key);
    NamedMeaning(g.field);
    ConditionMeaning(g.condition);
    hide Named, Blank, ConditionRule, OptionalPredicateCheck;
  }

  /** A bundle is accepted exactly when it keeps the rules, in every part of it. */
  lemma AcceptedExactly(b: AccessBundle, now: int)
    ensures BundleCheck(b, now).Pass? <==> Acceptable(b, now)
  {
    hide BundleCheck, HeaderCheck, HeaderRule, GrantRule, GrantValid, DataRule, DataPolicyValid, FieldRules,
      FieldPolicyValid, ReferenceRule, ReferenceCheck, ExportRule, ExportCheck, GuardrailRule, GuardrailValid,
      DistinctKeys, Once;
    ValidationMeaning(b, now);
    HeaderRuleMeaning(b, now);
    forall g: FunctionGrant
      ensures GrantRule(g) <==> GrantValid(g)
    {
      GrantRuleMeaning(g);
    }
    forall p: DataPolicy
      ensures DataRule(p) <==> DataPolicyValid(p)
    {
      DataRuleMeaning(p);
    }
    forall p: FieldPolicy
      ensures FieldRules(p) <==> FieldPolicyValid(p)
    {
      FieldRulesMeaning(p);
    }
    forall p: ReferencePolicy
      ensures ReferenceRule(p) <==> ReferenceCheck(p).Pass?
    {
      ReferenceRuleMeaning(p);
    }
    forall p: ExportPolicy
      ensures ExportRule(p) <==> ExportCheck(p).Pass?
    {
      ExportRuleMeaning(p);
    }
    forall g: Guardrail
      ensures GuardrailRule(g) <==> GuardrailValid(g)
    {
      GuardrailRuleMeaning(g);
    }
    OnceMeaning(b.functionGrants, (g: FunctionGrant) => (g.resource, g.action, g.effect), GrantKey);
    OnceMeaning(b.dataPolicies, (p: DataPolicy) => p.key, DataKey);
    OnceMeaning(b.fieldPolicies, (p: FieldPolicy) => (p.resource, p.field), FieldKey);
    OnceMeaning(b.referencePolicies, (p: ReferencePolicy) => (p.sourceResource, p.reference), ReferenceKey);
    OnceMeaning(b.exportPolicies, (p: ExportPolicy) => p.resource, ExportKey);
    OnceMeaning(b.guardrails, (g: Guardrail) => g.key, GuardrailKey);
  }

  lemma GrantRuleMeaning(g: FunctionGrant)
    ensures GrantRule(g) <==> GrantValid(g)
  {
    hide ValidIdentifier;
  }

  /** The limit on identifiers, on plain ASCII ones: between 1 and 256 letters. */
  lemma PlainIdentifier(s: string)
    requires forall c | c in s :: '!' <= c <= '~'
    ensures ValidIdentifier(s) <==> 1 <= |s| <= 256
  {
    if s != "" {
      assert s[0] in s && s[|s| - 1] in s;
    }
    PlainBytes(s);
  }

  lemma {:induction false} PlainBytes(s: string)
    requires forall c | c in s :: '!' <= c <= '~'
    ensures ByteLength(s) == |s|
  {
    if s != "" {
      assert s[0] in s && forall c | c in s[1..] :: c in s;
      PlainBytes(s[1..]);
    }
  }
}
