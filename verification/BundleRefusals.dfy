/** Which fault of an access bundle is reported: the first one in the order of the bundle's parts, each list read from
    its start, and each entry looked at for what it is, then for its key among the entries before it, then for what it
    holds. */
module BundleRefusals {
  import opened Wrappers
  import opened Text
  import opened Contract
  import opened Validation
  import opened BundleRules

  function Or(fault: Option<string>, next: Option<string>): Option<string> {
    if fault.Some? then fault else next
  }

  ghost function If(wrong: bool, code: string): Option<string> {
    if wrong then Some(code) else None
  }

  /** The first fault of a list, from a position on, where entries may be at fault with those before them. */
  ghost function ListFault<T>(s: seq<T>, fault: (seq<T>, T) -> Option<string>, i: nat): Option<string>
    requires i <= |s|
    decreases |s| - i
  {
    if i == |s| then None else Or(fault(s[..i], s[i]), ListFault(s, fault, i + 1))
  }

  // ----- Conditions -----

  /** What is wrong with a predicate, looked at before its parts. */
  ghost function ShapeFault(p: Predicate): Option<string> {
    var comparison := Named(p.fact) && p.operator in {Eq, Neq, In, NotIn, Exists, Prefix};
    var bare := !Named(p.fact) && p.operator == NoOperator;
    var groups := (if p.all != [] then 1 else 0) + (if p.anyOf != [] then 1 else 0) + if p.not.Some? then 1 else 0;
    Or(If(!(comparison && groups == 0) && !(bare && groups == 1), "identity.policy_predicate_invalid"),
       If(p.path != [] && (bare || |p.path| > 3 || exists s | s in p.path :: !SegmentRule(s)),
           "identity.policy_relation_path_invalid"))
  }

  ghost function PredicateFault(p: Predicate): Option<string>
    decreases p, 1
  {
    Or(ShapeFault(p), Or(PartsFault(p.all), Or(PartsFault(p.anyOf),
        if p.not.Some? then PredicateFault(p.not.value) else None)))
  }

  ghost function PartsFault(ps: seq<Predicate>): Option<string>
    decreases ps, 0
  {
    if ps == [] then None else Or(PredicateFault(ps[0]), PartsFault(ps[1..]))
  }

  lemma ShapeReported(p: Predicate)
    ensures ShapeCheck(p) == CheckOf(ShapeFault(p))
  {
    NamedMeaning(p.fact);
    forall s | s in p.path
      ensures SegmentRule(s) <==> SegmentValid(s)
    {
      SegmentRuleMeaning(s);
    }
    hide Named, Blank, SegmentRule, SegmentValid;
  }

  lemma {:induction false} PredicateReported(p: Predicate)
    ensures PredicateCheck(p) == CheckOf(PredicateFault(p))
    decreases p, 1
  {
    ShapeReported(p);
    PartsReported(p.all);
    PartsReported(p.anyOf);
    if p.not.Some? {
      PredicateReported(p.not.value);
    }
    hide ShapeCheck, ShapeFault, PartsFault, PredicatesCheck;
  }

  lemma {:induction false} PartsReported(ps: seq<Predicate>)
    ensures PredicatesCheck(ps) == CheckOf(PartsFault(ps))
    decreases ps, 0
  {
    hide PredicateCheck, PredicateFault;
    if ps != [] {
      PredicateReported(ps[0]);
      PartsReported(ps[1..]);
    }
  }

  ghost function ConditionFault(c: Option<Predicate>): Option<string> {
    if c.Some? then PredicateFault(c.value) else None
  }

  // ----- The header -----

  ghost function HeaderFault(b: AccessBundle, now: int): Option<string> {
    Or(If(b.contractVersion != "domainry-identity-access-bundle-v6", "identity.access_bundle_version_unsupported"),
    Or(If(!ValidIdentifier(b.authorizationRevision) || !ValidIdentifier(b.subject.subjectId)
          || !ValidIdentifier(b.subject.workspaceId) || Lower(Trim(b.subject.workspaceId)) == "default",
          "identity.access_bundle_identity_invalid"),
    Or(If(!NamesRule(b.subject.orgScopeIds) || !IdentifiersRule(b.subject.reportingScopeUserIds),
           "identity.access_bundle_scope_invalid"),
       If(b.expiresAt.None? || b.expiresAt.value <= now, "identity.access_bundle_expired"))))
  }

  lemma HeaderReported(b: AccessBundle, now: int)
    ensures HeaderCheck(b, now) == CheckOf(HeaderFault(b, now))
  {
    NamesRuleMeaning(b.subject.orgScopeIds);
    hide NamesRule, UniqueNonBlank, ValidIdentifier, Trim, Lower;
  }

  // ----- The entries -----

  ghost function GrantFault(before: seq<FunctionGrant>, g: FunctionGrant): Option<string> {
    Or(If(!GrantRule(g), "identity.function_grant_invalid"), If(g in before, "identity.function_grant_duplicate"))
  }

  ghost function ScopeFault(before: seq<DataScope>, s: DataScope): Option<string> {
    Or(If(s !in {ScopeAll, ScopeOwner, ScopeOrg, ScopeOrgChild, ScopeTargetOrg}, "identity.data_policy_scope_invalid"),
       If(s in before, "identity.data_policy_scope_duplicate"))
  }

  ghost function DataFault(before: seq<DataPolicy>, p: DataPolicy): Option<string> {
    Or(If(!Named(p.key) || !ValidIdentifier(p.resource) || p.resource == "*" || !ValidIdentifier(p.action)
           || !EffectRule(p.effect), "identity.data_policy_invalid"),
    Or(ListFault(p.dataScopes, ScopeFault, 0),
    Or(If(exists q | q in before :: q.key == p.key, "identity.data_policy_duplicate"),
       if ScopeAll in p.dataScopes then
         If(!(p.effect == Allow && |p.dataScopes| == 1 && Unconditional(p.condition)),
             "identity.data_policy_scope_invalid")
       else PredicateFault(p.condition))))
  }

  ghost function MaskFault(r: FieldRule): Option<string> {
    if r.effect != FieldMask then If(r.maskStrategy.Some?, "identity.field_rule_mask_invalid")
    else if r.maskStrategy.None? then Some("identity.field_rule_mask_required")
    else If(!MaskRule(r.maskStrategy.value), "identity.field_rule_mask_invalid")
  }

  ghost function RuleFault(before: seq<FieldRule>, r: FieldRule): Option<string> {
    Or(If(!Named(r.key) || r.effect !in {FieldAllow, FieldDeny, FieldHide, FieldMask} || r.actions == []
           || !IdentifiersRule(r.actions), "identity.field_rule_invalid"),
    Or(If(exists q | q in before :: q.key == r.key, "identity.field_rule_duplicate"),
    Or(If(exists q | q in before :: q.priority == r.priority, "identity.field_rule_priority_duplicate"),
    Or(ConditionFault(r.condition), MaskFault(r)))))
  }

  ghost function FieldFault(before: seq<FieldPolicy>, p: FieldPolicy): Option<string> {
    Or(If(!ValidIdentifier(p.resource) || !Named(p.field), "identity.field_policy_invalid"),
    Or(If(exists q | q in before :: q.resource == p.resource && q.field == p.field, "identity.field_policy_duplicate"),
       ListFault(p.rules, RuleFault, 0)))
  }

  ghost function ReferenceFault(before: seq<ReferencePolicy>, p: ReferencePolicy): Option<string> {
    Or(If(!ReferenceRule(p), "identity.reference_policy_invalid"),
       If(exists q | q in before :: q.sourceResource == p.sourceResource && q.reference == p.reference,
           "identity.reference_policy_duplicate"))
  }

  ghost function ExportFault(before: seq<ExportPolicy>, p: ExportPolicy): Option<string> {
    Or(If(!ExportRule(p), "identity.export_policy_invalid"),
       If(exists q | q in before :: q.resource == p.resource, "identity.export_policy_duplicate"))
  }

  ghost function GuardrailFault(before: seq<Guardrail>, g: Guardrail): Option<string> {
    Or(If(!Named(g.key) || g.effect != Deny
           || (g.resource == "" && (g.action != "" || Named(g.field) || g.condition.Some?))
           || (Named(g.field) && g.action == ""), "identity.guardrail_invalid"),
    Or(If(exists h | h in before :: h.key == g.key, "identity.guardrail_duplicate"),
       ConditionFault(g.condition)))
  }

  ghost function BundleFault(b: AccessBundle, now: int): Option<string> {
    Or(HeaderFault(b, now),
    Or(ListFault(b.functionGrants, GrantFault, 0),
    Or(ListFault(b.dataPolicies, DataFault, 0),
    Or(ListFault(b.fieldPolicies, FieldFault, 0),
    Or(ListFault(b.referencePolicies, ReferenceFault, 0),
    Or(ListFault(b.exportPolicies, ExportFault, 0),
       ListFault(b.guardrails, GuardrailFault, 0)))))))
  }

  // ----- The loops look for exactly these -----

  /** What the loop of `FirstError` finds wrong with an entry after others. */
  ghost predicate Finds<T(!new), K(!new)>(fault: (seq<T>, T) -> Option<string>, pre: T -> Check, key: T -> K,
                                          duplicate: string, post: T -> Check) {
    forall before, x :: CheckOf(fault(before, x))
      == Then(pre(x), Then(Require(!exists y | y in before :: key(y) == key(x), duplicate), post(x)))
  }

  lemma {:induction false} ListReported<T(!new), K(!new)>(s: seq<T>, i: nat, fault: (seq<T>, T) -> Option<string>,
                                                          pre: T -> Check, key: T -> K, duplicate: string,
                                                          post: T -> Check, seen: set<K>)
    requires i <= |s| && Finds(fault, pre, key, duplicate, post)
    requires forall k :: k in seen <==> exists y | y in s[..i] :: key(y) == k
    ensures FirstError(s[i..], pre, key, duplicate, post, seen) == CheckOf(ListFault(s, fault, i))
    decreases |s| - i
  {
    if i < |s| {
      var x, more := s[i], seen + {key(s[i])};
      assert s[i..][0] == x && s[i..][1..] == s[i + 1..] && s[..i + 1] == s[..i] + [x];
      assert CheckOf(fault(s[..i], x))
          == Then(pre(x), Then(Require(!exists y | y in s[..i] :: key(y) == key(x), duplicate), post(x)));
      hide Finds;
      assert forall y :: y in s[..i + 1] <==> y in s[..i] || y == x;
      ListReported(s, i + 1, fault, pre, key, duplicate, post, more);
    }
  }

  lemma WholeReported<T(!new), K(!new)>(s: seq<T>, fault: (seq<T>, T) -> Option<string>, pre: T -> Check,
                                        key: T -> K, duplicate: string, post: T -> Check)
    requires Finds(fault, pre, key, duplicate, post)
    ensures FirstError(s, pre, key, duplicate, post, {}) == CheckOf(ListFault(s, fault, 0))
  {
    assert s[0..] == s && s[..0] == [];
    ListReported(s, 0, fault, pre, key, duplicate, post, {});
  }

  function RuleKeys(s: seq<FieldRule>): set<string> {
    set y | y in s :: y.key
  }

  function Priorities(s: seq<FieldRule>): set<int> {
    set y | y in s :: y.priority
  }

  lemma KeysGrow(s: seq<FieldRule>, i: nat)
    requires i < |s|
    ensures RuleKeys(s[..i + 1]) == RuleKeys(s[..i]) + {s[i].key}
    ensures Priorities(s[..i + 1]) == Priorities(s[..i]) + {s[i].priority}
  {
    assert s[..i + 1] == s[..i] + [s[i]];
    assert forall y :: y in s[..i + 1] <==> y in s[..i] || y == s[i];
  }

  /** The loop over the rules, from a position on. */
  function RulesFrom(s: seq<FieldRule>, i: nat): Check
    requires i <= |s|
  {
    FirstErrorOfTwo(s[i..], RuleCheck, RuleKey, "identity.field_rule_duplicate", RulePriority,
        "identity.field_rule_priority_duplicate", RuleFurtherCheck, RuleKeys(s[..i]), Priorities(s[..i]))
  }

  /** What the loop finds wrong with a rule after others. */
  ghost function RuleFound(before: seq<FieldRule>, r: FieldRule): Check {
    Then(RuleCheck(r),
    Then(Require(r.key !in RuleKeys(before), "identity.field_rule_duplicate"),
    Then(Require(r.priority !in Priorities(before), "identity.field_rule_priority_duplicate"),
         RuleFurtherCheck(r))))
  }

  lemma RuleStep(s: seq<FieldRule>, i: nat)
    requires i < |s|
    ensures RulesFrom(s, i) == Then(RuleFound(s[..i], s[i]), RulesFrom(s, i + 1))
  {
    assert s[i..][0] == s[i] && s[i..][1..] == s[i + 1..];
    KeysGrow(s, i);
    hide RuleCheck, RuleFurtherCheck, RuleKeys, Priorities;
  }

  lemma {:induction false} RulesReported(s: seq<FieldRule>, i: nat)
    requires i <= |s|
    ensures RulesFrom(s, i) == CheckOf(ListFault(s, RuleFault, i))
    decreases |s| - i
  {
    if i < |s| {
      RuleStep(s, i);
      RuleReported(s[..i], s[i]);
      hide RuleFault, RuleFound, RulesFrom;
      RulesReported(s, i + 1);
      Chained(RuleFault(s[..i], s[i]), ListFault(s, RuleFault, i + 1));
    }
  }

  lemma Chained(fault: Option<string>, next: Option<string>)
    ensures CheckOf(Or(fault, next)) == Then(CheckOf(fault), CheckOf(next))
  {
  }

  lemma RuleReported(before: seq<FieldRule>, r: FieldRule)
    ensures CheckOf(RuleFault(before, r)) == RuleFound(before, r)
  {
    RuleItself(r);
    RuleHolds(r);
    hide Named, ValidIdentifier, RuleCheck, RuleFurtherCheck, ConditionFault, MaskFault, IdentifiersRule;
  }

  lemma RuleItself(r: FieldRule)
    ensures RuleCheck(r)
              == CheckOf(If(!Named(r.key) || r.effect !in {FieldAllow, FieldDeny, FieldHide, FieldMask}
                            || r.actions == [] || !IdentifiersRule(r.actions), "identity.field_rule_invalid"))
  {
    NamedMeaning(r.key);
    hide Named, Blank, ValidIdentifier;
  }

  lemma RuleHolds(r: FieldRule)
    ensures RuleFurtherCheck(r) == CheckOf(Or(ConditionFault(r.condition), MaskFault(r)))
  {
    ConditionReported(r.condition);
    hide ConditionFault, OptionalPredicateCheck;
  }

  lemma ConditionReported(c: Option<Predicate>)
    ensures OptionalPredicateCheck(c) == CheckOf(ConditionFault(c))
  {
    if c.Some? {
      PredicateReported(c.value);
    }
    hide PredicateFault, PredicateCheck;
  }

  lemma GrantReported()
    ensures Finds(GrantFault, GrantCheck, GrantKey, "identity.function_grant_duplicate", NoFurtherCheck)
  {
    forall before: seq<FunctionGrant>, g: FunctionGrant
      ensures CheckOf(GrantFault(before, g))
                == Then(GrantCheck(g), Then(Require(!exists y | y in before :: GrantKey(y) == GrantKey(g),
                                                "identity.function_grant_duplicate"), NoFurtherCheck(g)))
    {
      GrantRuleMeaning(g);
      hide ValidIdentifier, GrantRule;
    }
  }

  lemma ScopeReported()
    ensures Finds(ScopeFault, ScopeCheck, ScopeKey, "identity.data_policy_scope_duplicate", NoFurtherCheck)
  {
  }

  lemma DataReported()
    ensures Finds(DataFault, DataCheck, DataKey, "identity.data_policy_duplicate", DataFurtherCheck)
  {
    hide DataFault, DataCheck, DataFurtherCheck, Then, CheckOf;
    forall before: seq<DataPolicy>, p: DataPolicy
      ensures CheckOf(DataFault(before, p))
                == Then(DataCheck(p), Then(Require(!exists y | y in before :: DataKey(y) == DataKey(p),
                                               "identity.data_policy_duplicate"), DataFurtherCheck(p)))
    {
      PolicyReported(before, p);
    }
  }

  lemma PolicyReported(before: seq<DataPolicy>, p: DataPolicy)
    ensures CheckOf(DataFault(before, p))
              == Then(DataCheck(p), Then(Require(!exists y | y in before :: DataKey(y) == DataKey(p),
                                             "identity.data_policy_duplicate"), DataFurtherCheck(p)))
  {
    PolicyItself(p);
    NamedMeaning(p.condition.fact);
    PredicateReported(p.condition);
    hide ListFault, Named, Blank, ValidIdentifier, DataCheck, PredicateFault, PredicateCheck;
  }

  lemma PolicyItself(p: DataPolicy)
    ensures DataCheck(p)
              == CheckOf(Or(If(!Named(p.key) || !ValidIdentifier(p.resource) || p.resource == "*"
                               || !ValidIdentifier(p.action) || !EffectRule(p.effect), "identity.data_policy_invalid"),
                            ListFault(p.dataScopes, ScopeFault, 0)))
  {
    ScopeReported();
    WholeReported(p.dataScopes, ScopeFault, ScopeCheck, ScopeKey, "identity.data_policy_scope_duplicate",
        NoFurtherCheck);
    NamedMeaning(p.key);
    hide ListFault, FirstError, Finds, ValidIdentifier, Named, Blank;
  }

  lemma FieldReported()
    ensures Finds(FieldFault, FieldCheck, FieldKey, "identity.field_policy_duplicate", FieldFurtherCheck)
  {
    hide FieldFault, FieldCheck, FieldFurtherCheck, Then, CheckOf;
    forall before: seq<FieldPolicy>, p: FieldPolicy
      ensures CheckOf(FieldFault(before, p))
                == Then(FieldCheck(p), Then(Require(!exists y | y in before :: FieldKey(y) == FieldKey(p),
                                                "identity.field_policy_duplicate"), FieldFurtherCheck(p)))
    {
      EntryReported(before, p);
    }
  }

  lemma AllRules(s: seq<FieldRule>)
    ensures RulesFrom(s, 0) == RulesCheck(s)
  {
    assert s[0..] == s && s[..0] == [];
    assert RuleKeys([]) == {} && Priorities([]) == {};
    hide FirstErrorOfTwo, RuleKeys, Priorities;
  }

  lemma EntryReported(before: seq<FieldPolicy>, p: FieldPolicy)
    ensures CheckOf(FieldFault(before, p))
              == Then(FieldCheck(p), Then(Require(!exists y | y in before :: FieldKey(y) == FieldKey(p),
                                              "identity.field_policy_duplicate"), FieldFurtherCheck(p)))
  {
    AllRules(p.rules);
    RulesReported(p.rules, 0);
    NamedMeaning(p.field);
    hide Named, Blank, ValidIdentifier, ListFault, FirstErrorOfTwo, RulesFrom, RulesCheck;
  }

  lemma ReferenceReported()
    ensures Finds(ReferenceFault, ReferenceCheck, ReferenceKey, "identity.reference_policy_duplicate", NoFurtherCheck)
  {
    forall before: seq<ReferencePolicy>, p: ReferencePolicy
      ensures CheckOf(ReferenceFault(before, p))
                == Then(ReferenceCheck(p), Then(Require(!exists y | y in before :: ReferenceKey(y) == ReferenceKey(p),
                                                    "identity.reference_policy_duplicate"), NoFurtherCheck(p)))
    {
      ReferenceRuleMeaning(p);
      hide ReferenceRule, Blank, ValidIdentifier, UniqueNonBlank;
    }
  }

  lemma ExportReported()
    ensures Finds(ExportFault, ExportCheck, ExportKey, "identity.export_policy_duplicate", NoFurtherCheck)
  {
    forall before: seq<ExportPolicy>, p: ExportPolicy
      ensures CheckOf(ExportFault(before, p))
                == Then(ExportCheck(p), Then(Require(!exists y | y in before :: ExportKey(y) == ExportKey(p),
                                                 "identity.export_policy_duplicate"), NoFurtherCheck(p)))
    {
      ExportRuleMeaning(p);
      hide ExportRule, ValidIdentifier, UniqueNonBlank;
    }
  }

  lemma GuardrailReported()
    ensures Finds(GuardrailFault, GuardrailCheck, GuardrailKey, "identity.guardrail_duplicate", GuardrailFurtherCheck)
  {
    hide GuardrailFault, GuardrailCheck, GuardrailFurtherCheck, Then, CheckOf;
    forall before: seq<Guardrail>, g: Guardrail
      ensures CheckOf(GuardrailFault(before, g))
                == Then(GuardrailCheck(g), Then(Require(!exists y | y in before :: GuardrailKey(y) == GuardrailKey(g),
                                                    "identity.guardrail_duplicate"), GuardrailFurtherCheck(g)))
    {
      DenyReported(before, g);
    }
  }

  lemma DenyReported(before: seq<Guardrail>, g: Guardrail)
    ensures CheckOf(GuardrailFault(before, g))
              == Then(GuardrailCheck(g), Then(Require(!exists y | y in before :: GuardrailKey(y) == GuardrailKey(g),
                                                  "identity.guardrail_duplicate"), GuardrailFurtherCheck(g)))
  {
    NamedMeaning(g.key);
    NamedMeaning(g.field);
    ConditionReported(g.condition);
    hide Named, Blank, ConditionFault, OptionalPredicateCheck;
  }

  /** Validation reports exactly the first fault of the bundle, and passes exactly when it has none. */
  lemma ReportedExactly(b: AccessBundle, now: int)
    ensures BundleCheck(b, now) == CheckOf(BundleFault(b, now))
  {
    HeaderReported(b, now);
    GrantReported();
    DataReported();
    FieldReported();
    ReferenceReported();
    ExportReported();
    GuardrailReported();
    hide HeaderCheck, HeaderFault, ListFault, FirstError, Finds;
    WholeReported(b.functionGrants, GrantFault, GrantCheck, GrantKey, "identity.function_grant_duplicate",
        NoFurtherCheck);
    WholeReported(b.dataPolicies, DataFault, DataCheck, DataKey, "identity.data_policy_duplicate", DataFurtherCheck);
    WholeReported(b.fieldPolicies, FieldFault, FieldCheck, FieldKey, "identity.field_policy_duplicate",
        FieldFurtherCheck);
    WholeReported(b.referencePolicies, ReferenceFault, ReferenceCheck, ReferenceKey,
        "identity.reference_policy_duplicate", NoFurtherCheck);
    WholeReported(b.exportPolicies, ExportFault, ExportCheck, ExportKey, "identity.export_policy_duplicate",
        NoFurtherCheck);
    WholeReported(b.guardrails, GuardrailFault, GuardrailCheck, GuardrailKey, "identity.guardrail_duplicate",
        GuardrailFurtherCheck);
  }
}
