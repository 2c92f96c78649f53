/** The canonical access bundle: every list sorted, every predicate canonical, and no decision changed. */
module CanonicalBundle {
  import opened Wrappers
  import opened Text
  import opened Lists
  import opened Contract
  import opened Validation
  import opened Field
  import opened Evaluator
  import opened Canonical

  // ----- The entries -----

  const SCOPES := [ScopeAll, ScopeOwner, ScopeOrg, ScopeOrgChild, ScopeTargetOrg]

  function Listed(scopes: seq<DataScope>): DataScope -> bool {
    s => s in scopes
  }

  /** `canonicalDataScopes`. */
  function CanonScopes(scopes: seq<DataScope>): seq<DataScope> {
    Filter(Listed(scopes), SCOPES)
  }

  function CanonCondition(c: Option<Predicate>, o: Orders): Option<Predicate> {
    if c.Some? then Some(Canon(c.value, o)) else None
  }

  function CanonPolicy(o: Orders): DataPolicy -> DataPolicy {
    (p: DataPolicy) =>
      p.(dataScopes := CanonScopes(p.dataScopes), condition := if IsZero(p.condition) then p.condition
          else Canon(p.condition, o))
  }

  function CanonRule(o: Orders): FieldRule -> FieldRule {
    (r: FieldRule) => r.(actions := Sort(StringLeq, r.actions), condition := CanonCondition(r.condition, o))
  }

  predicate RuleLeq(a: FieldRule, b: FieldRule) {
    a.priority > b.priority || (a.priority == b.priority && StringLeq(a.key, b.key))
  }

  /** `canonicalFieldPolicy`. */
  function CanonField(o: Orders): FieldPolicy -> FieldPolicy {
    (p: FieldPolicy) => p.(rules := Sort(RuleLeq, Map(CanonRule(o), p.rules)))
  }

  function CanonReference(p: ReferencePolicy): ReferencePolicy {
    p.(displayFields := Sort(StringLeq, p.displayFields))
  }

  function CanonExport(p: ExportPolicy): ExportPolicy {
    p.(fields := Sort(StringLeq, p.fields))
  }

  function CanonGuardrail(o: Orders): Guardrail -> Guardrail {
    (g: Guardrail) => g.(condition := CanonCondition(g.condition, o))
  }

  function EffectText(e: Effect): string {
    match e case Allow => "allow" case Deny => "deny" case OtherEffect(name) => name
  }

  predicate GrantLeq(a: FunctionGrant, b: FunctionGrant) {
    StringLeq(a.resource + "\0" + a.action + "\0" + EffectText(a.effect),
        b.resource + "\0" + b.action + "\0" + EffectText(b.effect))
  }

  predicate DataLeq(a: DataPolicy, b: DataPolicy) {
    StringLeq(a.key, b.key)
  }

  predicate FieldLeq(a: FieldPolicy, b: FieldPolicy) {
    StringLeq(a.resource + "\0" + a.field, b.resource + "\0" + b.field)
  }

  predicate ReferenceLeq(a: ReferencePolicy, b: ReferencePolicy) {
    StringLeq(a.sourceResource + "\0" + a.reference, b.sourceResource + "\0" + b.reference)
  }

  predicate ExportLeq(a: ExportPolicy, b: ExportPolicy) {
    StringLeq(a.resource, b.resource)
  }

  predicate GuardrailLeq(a: Guardrail, b: Guardrail) {
    StringLeq(a.key, b.key)
  }

  /** The value `CanonicalJSON` serialises. */
  function CanonBundle(b: AccessBundle, o: Orders): AccessBundle {
    b.(subject := b.subject.(orgScopeIds := Sort(StringLeq, b.subject.orgScopeIds),
                             reportingScopeUserIds := Sort(StringLeq, b.subject.reportingScopeUserIds)),
       functionGrants := Sort(GrantLeq, b.functionGrants),
       dataPolicies := Sort(DataLeq, Map(CanonPolicy(o), b.dataPolicies)),
       fieldPolicies := Sort(FieldLeq, Map(CanonField(o), b.fieldPolicies)),
       referencePolicies := Sort(ReferenceLeq, Map(CanonReference, b.referencePolicies)),
       exportPolicies := Sort(ExportLeq, Map(CanonExport, b.exportPolicies)),
       guardrails := Sort(GuardrailLeq, Map(CanonGuardrail(o), b.guardrails)))
  }

  /** The `for index := range clone.X { clone.X[index] = ... }` loops of `CanonicalJSON`. */
  method Overwrite<T>(s: seq<T>, f: T -> T) returns (r: seq<T>)
    ensures r == Map(f, s)
  {
    r := s;
    for i := 0 to |s|
      invariant |r| == |s|
      invariant forall j | 0 <= j < i :: r[j] == f(s[j])
      invariant forall j | i <= j < |s| :: r[j] == s[j]
    {
      r := r[i := f(r[i])];
    }
  }

  /** `canonicalDataScopes`. */
  method CanonicalScopes(scopes: seq<DataScope>) returns (r: seq<DataScope>)
    ensures r == CanonScopes(scopes)
  {
    r := [];
    for i := 0 to |SCOPES|
      invariant r == Filter(Listed(scopes), SCOPES[..i])
    {
      assert SCOPES[..i + 1] == SCOPES[..i] + [SCOPES[i]];
      FilterSnoc(Listed(scopes), SCOPES[..i], SCOPES[i]);
      if SCOPES[i] in scopes {
        r := r + [SCOPES[i]];
      }
    }
    assert SCOPES[..|SCOPES|] == SCOPES;
  }

  method CanonicalPolicy(p: DataPolicy, o: Orders) returns (r: DataPolicy)
    ensures r == CanonPolicy(o)(p)
  {
    hide CanonScopes, Canon, IsZero;
    var scopes := CanonicalScopes(p.dataScopes);
    r := p.(dataScopes := scopes);
    if !IsZero(r.condition) {
      r := r.(condition := Canon(r.condition, o));
    }
  }

  /** The data-policy loop of `CanonicalJSON`. */
  method CanonicalPolicies(ps: seq<DataPolicy>, o: Orders) returns (r: seq<DataPolicy>)
    ensures r == Map(CanonPolicy(o), ps)
  {
    r := ps;
    for i := 0 to |ps|
      invariant |r| == |ps|
      invariant forall j | 0 <= j < i :: r[j] == CanonPolicy(o)(ps[j])
      invariant forall j | i <= j < |ps| :: r[j] == ps[j]
    {
      var p := CanonicalPolicy(r[i], o);
      r := r[i := p];
    }
  }

  /** `canonicalFieldPolicy`. */
  method CanonicalField(p: FieldPolicy, o: Orders) returns (r: FieldPolicy)
    ensures r == CanonField(o)(p)
  {
    hide Sort, CanonRule;
    var rules := Overwrite(p.rules, CanonRule(o));
    r := p.(rules := Sort(RuleLeq, rules));
  }

  /** The field-policy loop of `CanonicalJSON`. */
  method CanonicalFieldPolicies(ps: seq<FieldPolicy>, o: Orders) returns (r: seq<FieldPolicy>)
    ensures r == Map(CanonField(o), ps)
  {
    r := ps;
    for i := 0 to |ps|
      invariant |r| == |ps|
      invariant forall j | 0 <= j < i :: r[j] == CanonField(o)(ps[j])
      invariant forall j | i <= j < |ps| :: r[j] == ps[j]
    {
      var p := CanonicalField(r[i], o);
      r := r[i := p];
    }
  }

  /** `CanonicalJSON`, up to the final serialisation. */
  method CanonicalClone(b: AccessBundle, now: int, o: Orders) returns (r: Result<AccessBundle>)
    ensures r == match BundleCheck(b, now) case Fail(code) => Err(code) case Pass => Ok(CanonBundle(b, o))
  {
    var valid := Validate(b, now);
    if valid.Fail? { return Err(valid.code); }
    var data := CanonicalPolicies(b.dataPolicies, o);
    var fields := CanonicalFieldPolicies(b.fieldPolicies, o);
    var references := Overwrite(b.referencePolicies, CanonReference);
    var exports := Overwrite(b.exportPolicies, CanonExport);
    var guardrails := Overwrite(b.guardrails, CanonGuardrail(o));
    return Ok(b.(
      subject := b.subject.(orgScopeIds := Sort(StringLeq, b.subject.orgScopeIds),
                            reportingScopeUserIds := Sort(StringLeq, b.subject.reportingScopeUserIds)),
      functionGrants := Sort(GrantLeq, b.functionGrants), dataPolicies := Sort(DataLeq, data),
      fieldPolicies := Sort(FieldLeq, fields), referencePolicies := Sort(ReferenceLeq, references),
      exportPolicies := Sort(ExportLeq, exports), guardrails := Sort(GuardrailLeq, guardrails)));
  }

  // ----- One list of the bundle: every entry rewritten, then the list reordered -----

  lemma RewrittenMembers<T(!new)>(leq: (T, T) -> bool, f: T -> T, s: seq<T>)
    ensures forall x | x in s :: f(x) in Sort(leq, Map(f, s))
    ensures forall y | y in Sort(leq, Map(f, s)) :: exists x | x in s :: y == f(x)
  {
    hide Sort;
    var m := Map(f, s);
    var t := Sort(leq, m);
    MapMembers(f, s);
    SameMembers(m, t);
    forall x | x in s
      ensures f(x) in t
    {
      assert f(x) in m;
    }
    forall y | y in t
      ensures exists x | x in s :: y == f(x)
    {
      assert y in m;
    }
  }

  lemma RewrittenKeys<T(!new), K>(leq: (T, T) -> bool, f: T -> T, key: T -> K, s: seq<T>)
    requires DistinctKeys(s, key) && forall x | x in s :: key(f(x)) == key(x)
    ensures DistinctKeys(Map(f, s), key) && DistinctKeys(Sort(leq, Map(f, s)), key)
  {
    var m := Map(f, s);
    assert Map(key, m) == Map(key, s);
    MapPermuted(key, m, Sort(leq, m));
    NoDuplicatesPermuted(Map(key, m), Map(key, Sort(leq, m)));
  }

  lemma SortedKeys<T, K>(leq: (T, T) -> bool, key: T -> K, s: seq<T>)
    requires DistinctKeys(s, key)
    ensures DistinctKeys(Sort(leq, s), key)
  {
    MapPermuted(key, s, Sort(leq, s));
    NoDuplicatesPermuted(Map(key, s), Map(key, Sort(leq, s)));
  }

  lemma SortedStrings(s: seq<string>)
    ensures UniqueNonBlank(s) ==> UniqueNonBlank(Sort(StringLeq, s))
    ensures UniqueIdentifiers(s) ==> UniqueIdentifiers(Sort(StringLeq, s))
  {
    var t := Sort(StringLeq, s);
    SameMembers(s, t);
    MapPermuted(Trim, s, t);
    if NoDuplicates(Map(Trim, s)) {
      NoDuplicatesPermuted(Map(Trim, s), Map(Trim, t));
    }
    if NoDuplicates(s) {
      NoDuplicatesPermuted(s, t);
    }
  }

  // ----- Validity -----

  lemma ScopesListed()
    ensures NoDuplicates(SCOPES) && forall s: DataScope :: s in SCOPES <==> !s.OtherScope?
  {
  }

  lemma CanonScopesValid(scopes: seq<DataScope>)
    requires NoDuplicates(scopes) && forall s | s in scopes :: !s.OtherScope?
    ensures NoDuplicates(CanonScopes(scopes)) && forall s :: s in CanonScopes(scopes) <==> s in scopes
    ensures scopes == [ScopeAll] ==> CanonScopes(scopes) == [ScopeAll]
  {
    ScopesListed();
    hide Filter, SCOPES;
    FilterDistinct(Listed(scopes), SCOPES);
    if scopes == [ScopeAll] {
      OnlyMember(CanonScopes(scopes), ScopeAll);
    }
  }

  lemma OnlyMember<T(!new)>(s: seq<T>, x: T)
    requires NoDuplicates(s) && x in s && forall y | y in s :: y == x
    ensures s == [x]
  {
    assert s[0] in s && s[|s| - 1] in s;
  }

  lemma {:induction false} FilterDistinct<T>(keep: T -> bool, s: seq<T>)
    requires NoDuplicates(s)
    ensures NoDuplicates(Filter(keep, s))
  {
    if s != [] {
      assert NoDuplicates(s[1..]) by {
        assert forall i, j | 0 <= i < j < |s| - 1 :: s[1..][i] == s[i + 1] && s[1..][j] == s[j + 1];
      }
      FilterDistinct(keep, s[1..]);
      assert s[0] !in s[1..];
    }
  }

  lemma CanonPolicyValid(p: DataPolicy, o: Orders)
    requires DataPolicyValid(p)
    ensures DataPolicyValid(CanonPolicy(o)(p))
  {
    hide Blank, ValidIdentifier, PredicateCheck, IsZero, CanonScopes, Canon;
    CanonScopesValid(p.dataScopes);
    CanonKeepsValidity(p.condition, o);
  }

  lemma CanonConditionValid(c: Option<Predicate>, o: Orders)
    ensures OptionalPredicateCheck(CanonCondition(c, o)).Pass? <==> OptionalPredicateCheck(c).Pass?
  {
    if c.Some? {
      CanonKeepsValidity(c.value, o);
    }
  }

  lemma CanonRuleValid(r: FieldRule, o: Orders)
    requires RuleValid(r)
    ensures RuleValid(CanonRule(o)(r))
  {
    hide Blank, UniqueIdentifiers, PredicateCheck, Canon, OptionalPredicateCheck, CanonCondition;
    SortedStrings(r.actions);
    CanonConditionValid(r.condition, o);
  }

  lemma CanonFieldValid(p: FieldPolicy, o: Orders)
    requires FieldPolicyValid(p)
    ensures FieldPolicyValid(CanonField(o)(p))
  {
    hide DistinctKeys, RuleValid, FieldCheck, Sort, Map;
    var q := CanonField(o)(p);
    RewrittenMembers(RuleLeq, CanonRule(o), p.rules);
    RewrittenKeys(RuleLeq, CanonRule(o), RuleKey, p.rules);
    RewrittenKeys(RuleLeq, CanonRule(o), RulePriority, p.rules);
    forall y | y in q.rules
      ensures RuleValid(y)
    {
      var x :| x in p.rules && y == CanonRule(o)(x);
      CanonRuleValid(x, o);
    }
    assert FieldCheck(q) == FieldCheck(p) by {
      SameFieldCheck(p, q);
    }
  }

  lemma SameFieldCheck(p: FieldPolicy, q: FieldPolicy)
    requires q.resource == p.resource && q.field == p.field
    ensures FieldCheck(q) == FieldCheck(p)
  {
  }

  lemma CanonReferenceValid(p: ReferencePolicy)
    requires ReferenceCheck(p).Pass?
    ensures ReferenceCheck(CanonReference(p)).Pass?
  {
    hide Blank, ValidIdentifier, UniqueNonBlank;
    SortedStrings(p.displayFields);
  }

  lemma CanonExportValid(p: ExportPolicy)
    requires ExportCheck(p).Pass?
    ensures ExportCheck(CanonExport(p)).Pass?
  {
    hide Blank, ValidIdentifier, UniqueNonBlank;
    SortedStrings(p.fields);
  }

  lemma CanonGuardrailValid(g: Guardrail, o: Orders)
    requires GuardrailValid(g)
    ensures GuardrailValid(CanonGuardrail(o)(g))
  {
    hide Blank, OptionalPredicateCheck, CanonCondition;
    CanonConditionValid(g.condition, o);
    assert CanonCondition(g.condition, o).Some? <==> g.condition.Some? by { SameConditionShape(g.condition, o); }
  }

  lemma SameConditionShape(c: Option<Predicate>, o: Orders)
    ensures CanonCondition(c, o).Some? <==> c.Some?
  {
  }

  /** A list whose entries stay valid under `f` stays valid when rewritten and reordered. */
  lemma RewrittenValid<T(!new)>(leq: (T, T) -> bool, f: T -> T, valid: T -> bool, s: seq<T>)
    requires forall x | x in s :: valid(x) && valid(f(x))
    ensures forall y | y in Sort(leq, Map(f, s)) :: valid(y)
  {
    RewrittenMembers(leq, f, s);
  }

  lemma CanonHeader(b: AccessBundle, now: int, o: Orders)
    requires HeaderCheck(b, now).Pass?
    ensures HeaderCheck(CanonBundle(b, o), now).Pass?
  {
    hide ValidIdentifier, ValidWorkspace, UniqueNonBlank, UniqueIdentifiers, Sort, Map;
    SortedStrings(b.subject.orgScopeIds);
    SortedStrings(b.subject.reportingScopeUserIds);
  }

  lemma CanonDataList(s: seq<DataPolicy>, o: Orders)
    requires (forall p | p in s :: DataPolicyValid(p)) && DistinctKeys(s, DataKey)
    ensures var t := Sort(DataLeq, Map(CanonPolicy(o), s));
            (forall p | p in t :: DataPolicyValid(p)) && DistinctKeys(t, DataKey)
  {
    hide DataPolicyValid, DistinctKeys, Sort, Map;
    forall p | p in s ensures DataPolicyValid(CanonPolicy(o)(p)) { CanonPolicyValid(p, o); }
    RewrittenValid(DataLeq, CanonPolicy(o), DataPolicyValid, s);
    RewrittenKeys(DataLeq, CanonPolicy(o), DataKey, s);
  }

  lemma CanonFieldList(s: seq<FieldPolicy>, o: Orders)
    requires (forall p | p in s :: FieldPolicyValid(p)) && DistinctKeys(s, FieldKey)
    ensures var t := Sort(FieldLeq, Map(CanonField(o), s));
            (forall p | p in t :: FieldPolicyValid(p)) && DistinctKeys(t, FieldKey)
  {
    hide FieldPolicyValid, DistinctKeys, Sort, Map;
    forall p | p in s ensures FieldPolicyValid(CanonField(o)(p)) { CanonFieldValid(p, o); }
    RewrittenValid(FieldLeq, CanonField(o), FieldPolicyValid, s);
    RewrittenKeys(FieldLeq, CanonField(o), FieldKey, s);
  }

  lemma CanonReferenceList(s: seq<ReferencePolicy>)
    requires (forall p | p in s :: ReferenceCheck(p).Pass?) && DistinctKeys(s, ReferenceKey)
    ensures var t := Sort(ReferenceLeq, Map(CanonReference, s));
            (forall p | p in t :: ReferenceCheck(p).Pass?) && DistinctKeys(t, ReferenceKey)
  {
    hide ReferenceCheck, DistinctKeys, Sort, Map;
    RewrittenMembers(ReferenceLeq, CanonReference, s);
    forall p | p in s ensures ReferenceCheck(CanonReference(p)).Pass? { CanonReferenceValid(p); }
    RewrittenKeys(ReferenceLeq, CanonReference, ReferenceKey, s);
  }

  lemma CanonExportList(s: seq<ExportPolicy>)
    requires (forall p | p in s :: ExportCheck(p).Pass?) && DistinctKeys(s, ExportKey)
    ensures var t := Sort(ExportLeq, Map(CanonExport, s));
            (forall p | p in t :: ExportCheck(p).Pass?) && DistinctKeys(t, ExportKey)
  {
    hide ExportCheck, DistinctKeys, Sort, Map;
    RewrittenMembers(ExportLeq, CanonExport, s);
    forall p | p in s ensures ExportCheck(CanonExport(p)).Pass? { CanonExportValid(p); }
    RewrittenKeys(ExportLeq, CanonExport, ExportKey, s);
  }

  lemma CanonGuardrailList(s: seq<Guardrail>, o: Orders)
    requires (forall g | g in s :: GuardrailValid(g)) && DistinctKeys(s, GuardrailKey)
    ensures var t := Sort(GuardrailLeq, Map(CanonGuardrail(o), s));
            (forall g | g in t :: GuardrailValid(g)) && DistinctKeys(t, GuardrailKey)
  {
    hide GuardrailValid, DistinctKeys, Sort, Map;
    forall g | g in s ensures GuardrailValid(CanonGuardrail(o)(g)) { CanonGuardrailValid(g, o); }
    RewrittenValid(GuardrailLeq, CanonGuardrail(o), GuardrailValid, s);
    RewrittenKeys(GuardrailLeq, CanonGuardrail(o), GuardrailKey, s);
  }

  /** A canonical bundle is a valid bundle. */
  lemma CanonBundleValid(b: AccessBundle, now: int, o: Orders)
    requires WellFormed(b, now)
    ensures WellFormed(CanonBundle(b, o), now)
  {
    hide HeaderCheck, DistinctKeys, Sort, Map, GrantValid, DataPolicyValid, FieldPolicyValid, ReferenceCheck,
      ExportCheck, GuardrailValid;
    CanonHeader(b, now, o);
    SameMembers(b.functionGrants, Sort(GrantLeq, b.functionGrants));
    SortedKeys(GrantLeq, GrantKey, b.functionGrants);
    CanonDataList(b.dataPolicies, o);
    CanonFieldList(b.fieldPolicies, o);
    CanonReferenceList(b.referencePolicies);
    CanonExportList(b.exportPolicies);
    CanonGuardrailList(b.guardrails, o);
  }

  // ----- Decisions -----

  predicate ConditionErrorFree(c: Option<Predicate>, facts: ResourceFacts, context: EvaluationContext) {
    c.Some? ==> ErrorFree(c.value, facts, context)
  }

  /** No predicate of the bundle fails on these facts, wherever it stands. */
  predicate BundleErrorFree(b: AccessBundle, facts: ResourceFacts, context: EvaluationContext) {
    && (forall g | g in b.guardrails :: ConditionErrorFree(g.condition, facts, context))
    && (forall p | p in b.dataPolicies && !UnrestrictedAllow(p) :: ErrorFree(p.condition, facts, context))
    && (forall p | p in b.fieldPolicies :: forall r | r in p.rules :: ConditionErrorFree(r.condition, facts, context))
  }

  lemma GateKept(grants: seq<FunctionGrant>, resource: string, action: string)
    ensures FunctionGate(Sort(GrantLeq, grants), resource, action) == FunctionGate(grants, resource, action)
  {
    hide Sort;
    SameMembers(grants, Sort(GrantLeq, grants));
  }

  lemma GuardrailKept(g: Guardrail, resource: string, action: string, facts: ResourceFacts, context: EvaluationContext,
                      o: Orders)
    requires ConditionErrorFree(g.condition, facts, context)
    ensures var h := CanonGuardrail(o)(g);
            && GuardrailApplies(h, resource, action) == GuardrailApplies(g, resource, action)
            && GuardrailMatch(h, facts, context) == GuardrailMatch(g, facts, context)
  {
    hide Canon, EvalPredicate, ErrorFree;
    if g.condition.Some? {
      CanonKeepsMeaning(g.condition.value, facts, context, o);
    }
  }

  lemma GuardrailsKept(gs: seq<Guardrail>, resource: string, action: string, facts: ResourceFacts,
                       context: EvaluationContext, o: Orders)
    requires forall g | g in gs :: ConditionErrorFree(g.condition, facts, context)
    ensures GuardrailsSilent(Sort(GuardrailLeq, Map(CanonGuardrail(o), gs)), resource, action, facts, context)
        <==> GuardrailsSilent(gs, resource, action, facts, context)
  {
    hide Sort, Map, GuardrailApplies, GuardrailMatch, ConditionErrorFree, CanonGuardrail;
    var hs := Sort(GuardrailLeq, Map(CanonGuardrail(o), gs));
    RewrittenMembers(GuardrailLeq, CanonGuardrail(o), gs);
    forall g | g in gs
      ensures GuardrailApplies(CanonGuardrail(o)(g), resource, action) == GuardrailApplies(g, resource, action)
      ensures GuardrailMatch(CanonGuardrail(o)(g), facts, context) == GuardrailMatch(g, facts, context)
    {
      GuardrailKept(g, resource, action, facts, context, o);
    }
    if !GuardrailsSilent(gs, resource, action, facts, context) {
      var g :| g in gs && GuardrailApplies(g, resource, action) && !No(GuardrailMatch(g, facts, context));
      assert CanonGuardrail(o)(g) in hs;
    }
  }

  lemma PolicyKept(p: DataPolicy, resource: string, action: string, facts: ResourceFacts, context: EvaluationContext,
                   o: Orders)
    requires DataPolicyValid(p) && (!UnrestrictedAllow(p) ==> ErrorFree(p.condition, facts, context))
    ensures var q := CanonPolicy(o)(p);
            && PolicyQuiet(q, resource, action, facts, context) == PolicyQuiet(p, resource, action, facts, context)
            && PolicyGrants(q, resource, action, facts, context) == PolicyGrants(p, resource, action, facts, context)
  {
    hide Canon, EvalPredicate, ErrorFree, PredicateCheck, IsZero, CanonScopes, Blank, ValidIdentifier, ResourceMatches;
    CanonScopesValid(p.dataScopes);
    if !UnrestrictedAllow(p) {
      CanonKeepsMeaning(p.condition, facts, context, o);
    }
  }

  lemma PoliciesKept(ps: seq<DataPolicy>, resource: string, action: string, facts: ResourceFacts,
                     context: EvaluationContext, o: Orders)
    requires forall p | p in ps :: DataPolicyValid(p)
               && (!UnrestrictedAllow(p) ==> ErrorFree(p.condition, facts, context))
    ensures PoliciesPass(Sort(DataLeq, Map(CanonPolicy(o), ps)), resource, action, facts, context)
        <==> PoliciesPass(ps, resource, action, facts, context)
  {
    hide Sort, Map, PolicyQuiet, PolicyGrants, ErrorFree, DataPolicyValid, UnrestrictedAllow, CanonPolicy;
    var qs := Sort(DataLeq, Map(CanonPolicy(o), ps));
    RewrittenMembers(DataLeq, CanonPolicy(o), ps);
    forall p | p in ps
      ensures PolicyQuiet(CanonPolicy(o)(p), resource, action, facts, context)
                == PolicyQuiet(p, resource, action, facts, context)
      ensures PolicyGrants(CanonPolicy(o)(p), resource, action, facts, context)
                == PolicyGrants(p, resource, action, facts, context)
    {
      PolicyKept(p, resource, action, facts, context, o);
    }
    if !(forall p | p in ps :: PolicyQuiet(p, resource, action, facts, context)) {
      var p :| p in ps && !PolicyQuiet(p, resource, action, facts, context);
      assert CanonPolicy(o)(p) in qs;
    }
    if exists p | p in ps :: PolicyGrants(p, resource, action, facts, context) {
      var p :| p in ps && PolicyGrants(p, resource, action, facts, context);
      assert CanonPolicy(o)(p) in qs;
    }
  }

  /** The record layers of the canonical bundle allow exactly the records the original allows. */
  lemma CanonicalRecords(b: AccessBundle, now: int, resource: string, action: string, facts: ResourceFacts,
                         context: EvaluationContext, o: Orders)
    requires WellFormed(b, now) && BundleErrorFree(b, facts, context)
    ensures RecordAllowed(CanonBundle(b, o), resource, action, facts, context) <==>
              RecordAllowed(b, resource, action, facts, context)
  {
    hide FunctionGate, GuardrailsSilent, PoliciesPass, Sort, Map, DataPolicyValid, ErrorFree, ConditionErrorFree,
      UnrestrictedAllow;
    GateKept(b.functionGrants, resource, action);
    GuardrailsKept(b.guardrails, resource, action, facts, context, o);
    PoliciesKept(b.dataPolicies, resource, action, facts, context, o);
  }
}
