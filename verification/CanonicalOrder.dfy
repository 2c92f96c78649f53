/** The canonical bundle as a normal form: idempotent, and the same for two bundles exactly when they are reorderings of
    each other. This is what makes a digest of its serialisation a key. */
module CanonicalOrder {
  import opened Wrappers
  import opened Text
  import opened Lists
  import opened Contract
  import opened Validation
  import opened Canonical
  import opened CanonicalBundle

  // ----- The sort keys tell valid entries apart -----

  lemma {:induction false} TrimmedLetters(s: string, c: char)
    requires c in s && !IsSpace(c)
    ensures c in Trim(s)
  {
    if IsSpace(s[0]) {
      TrimmedLetters(s[1..], c);
    } else if IsSpace(s[|s| - 1]) {
      TrimmedLetters(s[..|s| - 1], c);
    }
  }

  lemma NoNul(s: string)
    requires ValidIdentifier(s)
    ensures '\0' !in s
  {
    if '\0' in s {
      TrimmedLetters(s, '\0');
    }
  }

  /** A text without NUL before the first NUL can be read off the joined key. */
  lemma JoinSplits(a: string, b: string, c: string, d: string)
    requires '\0' !in a && '\0' !in c && a + "\0" + b == c + "\0" + d
    ensures a == c && b == d
  {
    var left, right := a + "\0" + b, c + "\0" + d;
    assert left[|a|] == '\0' && forall i | 0 <= i < |a| :: left[i] == a[i] && left[i] != '\0';
    assert right[|c|] == '\0' && forall i | 0 <= i < |c| :: right[i] == c[i] && right[i] != '\0';
    assert |a| == |c|;
    assert left[..|a|] == a && right[..|c|] == c;
    assert left[|a| + 1..] == b && right[|c| + 1..] == d;
  }

  /** Entries whose keys differ wherever their texts do are told apart by an order on the texts. */
  lemma TextDecides<T(!new), K(!new)>(s: seq<T>, key: T -> K, text: T -> string, leq: (T, T) -> bool)
    requires DistinctKeys(s, key)
    requires forall x, y | x in s && y in s && text(x) == text(y) :: key(x) == key(y)
    requires forall x, y :: leq(x, y) == StringLeq(text(x), text(y))
    ensures Ordering(leq) && Separates(leq, s)
  {
    hide StringLeq;
    StringOrder();
    forall x, y | x in s && y in s && leq(x, y) && leq(y, x)
      ensures x == y
    {
      var i, j :| 0 <= i < |s| && 0 <= j < |s| && s[i] == x && s[j] == y;
      assert Map(key, s)[i] == Map(key, s)[j];
    }
  }

  function GrantText(g: FunctionGrant): string {
    g.resource + "\0" + g.action + "\0" + EffectText(g.effect)
  }

  function FieldText(p: FieldPolicy): string {
    p.resource + "\0" + p.field
  }

  function ReferenceText(p: ReferencePolicy): string {
    p.sourceResource + "\0" + p.reference
  }

  lemma GrantSplits(x: FunctionGrant, y: FunctionGrant)
    requires GrantValid(x) && GrantValid(y) && GrantText(x) == GrantText(y)
    ensures GrantKey(x) == GrantKey(y)
  {
    hide ValidIdentifier;
    NoNul(x.resource);
    NoNul(y.resource);
    NoNul(x.action);
    NoNul(y.action);
    var tail, tail' := x.action + "\0" + EffectText(x.effect), y.action + "\0" + EffectText(y.effect);
    assert GrantText(x) == x.resource + "\0" + tail && GrantText(y) == y.resource + "\0" + tail';
    JoinSplits(x.resource, tail, y.resource, tail');
    JoinSplits(x.action, EffectText(x.effect), y.action, EffectText(y.effect));
  }

  lemma GrantsDecided(s: seq<FunctionGrant>)
    requires (forall g | g in s :: GrantValid(g)) && DistinctKeys(s, GrantKey)
    ensures Ordering(GrantLeq) && Separates(GrantLeq, s)
  {
    hide StringLeq, GrantValid, DistinctKeys, GrantText, GrantKey, GrantLeq;
    forall x, y | x in s && y in s && GrantText(x) == GrantText(y)
      ensures GrantKey(x) == GrantKey(y)
    {
      GrantSplits(x, y);
    }
    GrantOrderIsText();
    TextDecides(s, GrantKey, GrantText, GrantLeq);
  }

  lemma GrantOrderIsText()
    ensures forall x, y :: GrantLeq(x, y) == StringLeq(GrantText(x), GrantText(y))
  {
    hide StringLeq;
  }

  lemma FieldsDecided(s: seq<FieldPolicy>)
    requires (forall p | p in s :: FieldPolicyValid(p)) && DistinctKeys(s, FieldKey)
    ensures Ordering(FieldLeq) && Separates(FieldLeq, s)
  {
    hide StringLeq, ValidIdentifier, DistinctKeys, RuleValid;
    forall x, y | x in s && y in s && FieldText(x) == FieldText(y)
      ensures FieldKey(x) == FieldKey(y)
    {
      NoNul(x.resource);
      NoNul(y.resource);
      JoinSplits(x.resource, x.field, y.resource, y.field);
    }
    TextDecides(s, FieldKey, FieldText, FieldLeq);
  }

  lemma ReferencesDecided(s: seq<ReferencePolicy>)
    requires (forall p | p in s :: ReferenceCheck(p).Pass?) && DistinctKeys(s, ReferenceKey)
    ensures Ordering(ReferenceLeq) && Separates(ReferenceLeq, s)
  {
    hide StringLeq, ValidIdentifier, DistinctKeys, UniqueNonBlank;
    forall x, y | x in s && y in s && ReferenceText(x) == ReferenceText(y)
      ensures ReferenceKey(x) == ReferenceKey(y)
    {
      NoNul(x.sourceResource);
      NoNul(y.sourceResource);
      JoinSplits(x.sourceResource, x.reference, y.sourceResource, y.reference);
    }
    TextDecides(s, ReferenceKey, ReferenceText, ReferenceLeq);
  }

  lemma OthersDecided(data: seq<DataPolicy>, exports: seq<ExportPolicy>, guardrails: seq<Guardrail>)
    requires DistinctKeys(data, DataKey) && DistinctKeys(exports, ExportKey) && DistinctKeys(guardrails, GuardrailKey)
    ensures Ordering(DataLeq) && Separates(DataLeq, data)
    ensures Ordering(ExportLeq) && Separates(ExportLeq, exports)
    ensures Ordering(GuardrailLeq) && Separates(GuardrailLeq, guardrails)
  {
    hide StringLeq, DistinctKeys;
    TextDecides(data, DataKey, DataKey, DataLeq);
    TextDecides(exports, ExportKey, ExportKey, ExportLeq);
    TextDecides(guardrails, GuardrailKey, GuardrailKey, GuardrailLeq);
  }

  // ----- Two bundles -----

  ghost predicate ReorderedCondition(c: Option<Predicate>, d: Option<Predicate>) {
    (c.Some? <==> d.Some?) && (c.Some? ==> Permuted(c.value, d.value))
  }

  /** The same policy, but for the order of its scopes and inside its condition. */
  ghost predicate ReorderedPolicy(p: DataPolicy, q: DataPolicy) {
    && p.(dataScopes := [], condition := ZERO_PREDICATE) == q.(dataScopes := [], condition := ZERO_PREDICATE)
    && (forall s | s in SCOPES :: s in p.dataScopes <==> s in q.dataScopes)
    && Permuted(p.condition, q.condition)
  }

  ghost predicate ReorderedRule(r: FieldRule, s: FieldRule) {
    && r.(actions := [], condition := None) == s.(actions := [], condition := None)
    && multiset(r.actions) == multiset(s.actions) && ReorderedCondition(r.condition, s.condition)
  }

  /** The same entry, but for the order of its rules and inside them. */
  ghost predicate ReorderedField(p: FieldPolicy, q: FieldPolicy) {
    p.(rules := []) == q.(rules := []) && Reordered(ReorderedRule, p.rules, q.rules)
  }

  predicate ReorderedReference(p: ReferencePolicy, q: ReferencePolicy) {
    p.(displayFields := []) == q.(displayFields := []) && multiset(p.displayFields) == multiset(q.displayFields)
  }

  predicate ReorderedExport(p: ExportPolicy, q: ExportPolicy) {
    p.(fields := []) == q.(fields := []) && multiset(p.fields) == multiset(q.fields)
  }

  ghost predicate ReorderedGuardrail(g: Guardrail, h: Guardrail) {
    g.(condition := None) == h.(condition := None) && ReorderedCondition(g.condition, h.condition)
  }

  /** The lists of both bundles hold the same entries, in any order and reordered inside. */
  ghost predicate SameEntries(b: AccessBundle, c: AccessBundle) {
    && multiset(b.functionGrants) == multiset(c.functionGrants)
    && Reordered(ReorderedPolicy, b.dataPolicies, c.dataPolicies)
    && Reordered(ReorderedField, b.fieldPolicies, c.fieldPolicies)
    && Reordered(ReorderedReference, b.referencePolicies, c.referencePolicies)
    && Reordered(ReorderedExport, b.exportPolicies, c.exportPolicies)
    && Reordered(ReorderedGuardrail, b.guardrails, c.guardrails)
  }

  /** Everything else: version, revision, expiry and the subject up to the order of its scopes. */
  ghost predicate SameHeader(b: AccessBundle, c: AccessBundle) {
    && b.contractVersion == c.contractVersion && b.authorizationRevision == c.authorizationRevision
    && b.expiresAt == c.expiresAt
    && b.subject.(orgScopeIds := [], reportingScopeUserIds := [])
       == c.subject.(orgScopeIds := [], reportingScopeUserIds := [])
    && multiset(b.subject.orgScopeIds) == multiset(c.subject.orgScopeIds)
    && multiset(b.subject.reportingScopeUserIds) == multiset(c.subject.reportingScopeUserIds)
  }

  lemma StringsAlike(s: seq<string>, t: seq<string>)
    ensures Sort(StringLeq, s) == Sort(StringLeq, t) <==> multiset(s) == multiset(t)
  {
    StringOrder();
    hide StringLeq;
    SortedAlike(StringLeq, s, t);
  }

  lemma ConditionAlike(c: Option<Predicate>, d: Option<Predicate>, o: Orders)
    requires Total(o)
    ensures CanonCondition(c, o) == CanonCondition(d, o) <==> ReorderedCondition(c, d)
  {
    hide Canon, Permuted, Total;
    if c.Some? && d.Some? {
      CanonicalFormIsComplete(c.value, d.value, o);
    }
  }

  lemma ScopesAlike(s: seq<DataScope>, t: seq<DataScope>)
    ensures CanonScopes(s) == CanonScopes(t) <==> forall x | x in SCOPES :: x in s <==> x in t
  {
    hide Filter;
    if forall x | x in SCOPES :: x in s <==> x in t {
      FilterAlike(Listed(s), Listed(t), SCOPES);
    }
    if CanonScopes(s) == CanonScopes(t) {
      forall x | x in SCOPES
        ensures x in s <==> x in t
      {
        assert x in s <==> x in CanonScopes(s);
        assert x in t <==> x in CanonScopes(t);
      }
    }
  }

  lemma ZeroIsCanonical(p: Predicate, o: Orders)
    requires IsZero(p)
    ensures Canon(p, o) == p
  {
    hide Blank;
  }

  lemma CanonicalPolicyIs(p: DataPolicy, o: Orders)
    ensures CanonPolicy(o)(p) == p.(dataScopes := CanonScopes(p.dataScopes), condition := Canon(p.condition, o))
  {
    hide Canon, IsZero, CanonScopes;
    if IsZero(p.condition) {
      ZeroIsCanonical(p.condition, o);
    }
  }

  lemma PolicyAlike(p: DataPolicy, q: DataPolicy, o: Orders)
    requires Total(o)
    ensures CanonPolicy(o)(p) == CanonPolicy(o)(q) <==> ReorderedPolicy(p, q)
  {
    hide Canon, Permuted, Total, CanonScopes, CanonPolicy;
    CanonicalPolicyIs(p, o);
    CanonicalPolicyIs(q, o);
    CanonicalFormIsComplete(p.condition, q.condition, o);
    ScopesAlike(p.dataScopes, q.dataScopes);
  }

  lemma RuleAlike(r: FieldRule, s: FieldRule, o: Orders)
    requires Total(o)
    ensures CanonRule(o)(r) == CanonRule(o)(s) <==> ReorderedRule(r, s)
  {
    hide Sort, CanonCondition, ReorderedCondition, Total;
    StringsAlike(r.actions, s.actions);
    ConditionAlike(r.condition, s.condition, o);
  }

  lemma RulesSeparate(rules: seq<FieldRule>, o: Orders)
    requires DistinctKeys(rules, RulePriority)
    ensures Ordering(RuleLeq) && Separates(RuleLeq, Map(CanonRule(o), rules))
  {
    RulesOrdered();
    hide StringLeq, Sort, CanonCondition;
    var rewritten := Map(CanonRule(o), rules);
    assert Map(RulePriority, rewritten) == Map(RulePriority, rules);
    forall x, y | x in rewritten && y in rewritten && RuleLeq(x, y) && RuleLeq(y, x)
      ensures x == y
    {
      KeyDetermines(rewritten, RulePriority, x, y);
    }
  }

  lemma FieldAlike(p: FieldPolicy, q: FieldPolicy, o: Orders)
    requires Total(o) && DistinctKeys(p.rules, RulePriority)
    ensures CanonField(o)(p) == CanonField(o)(q) <==> ReorderedField(p, q)
  {
    hide Sort, Map, CanonRule, ReorderedRule, Total, DistinctKeys, RuleLeq, Reordered;
    forall r, s | r in p.rules && s in q.rules
      ensures ReorderedRule(r, s) <==> CanonRule(o)(r) == CanonRule(o)(s)
    {
      RuleAlike(r, s, o);
    }
    ReorderedImages(ReorderedRule, CanonRule(o), p.rules, q.rules);
    RulesSeparate(p.rules, o);
    SortedAlike(RuleLeq, Map(CanonRule(o), p.rules), Map(CanonRule(o), q.rules));
  }

  lemma OthersAlike(o: Orders)
    requires Total(o)
    ensures forall p, q :: CanonReference(p) == CanonReference(q) <==> ReorderedReference(p, q)
    ensures forall p, q :: CanonExport(p) == CanonExport(q) <==> ReorderedExport(p, q)
    ensures forall g, h :: CanonGuardrail(o)(g) == CanonGuardrail(o)(h) <==> ReorderedGuardrail(g, h)
  {
    hide Sort, CanonCondition, ReorderedCondition, Total;
    forall p: ReferencePolicy, q: ReferencePolicy
      ensures CanonReference(p) == CanonReference(q) <==> ReorderedReference(p, q)
    {
      StringsAlike(p.displayFields, q.displayFields);
    }
    forall p: ExportPolicy, q: ExportPolicy
      ensures CanonExport(p) == CanonExport(q) <==> ReorderedExport(p, q)
    {
      StringsAlike(p.fields, q.fields);
    }
    forall g: Guardrail, h: Guardrail
      ensures CanonGuardrail(o)(g) == CanonGuardrail(o)(h) <==> ReorderedGuardrail(g, h)
    {
      ConditionAlike(g.condition, h.condition, o);
    }
  }

  /** Reordering entry by entry is equality of the canonical entries up to order. */
  lemma EntriesAlike(b: AccessBundle, c: AccessBundle, now: int, o: Orders)
    requires Total(o) && WellFormed(b, now)
    ensures SameEntries(b, c) <==>
              && multiset(b.functionGrants) == multiset(c.functionGrants)
              && multiset(Map(CanonPolicy(o), b.dataPolicies)) == multiset(Map(CanonPolicy(o), c.dataPolicies))
              && multiset(Map(CanonField(o), b.fieldPolicies)) == multiset(Map(CanonField(o), c.fieldPolicies))
              && multiset(Map(CanonReference, b.referencePolicies))
                  == multiset(Map(CanonReference, c.referencePolicies))
              && multiset(Map(CanonExport, b.exportPolicies)) == multiset(Map(CanonExport, c.exportPolicies))
              && multiset(Map(CanonGuardrail(o), b.guardrails)) == multiset(Map(CanonGuardrail(o), c.guardrails))
  {
    hide Map, Reordered, CanonPolicy, CanonField, CanonReference, CanonExport, CanonGuardrail, ReorderedPolicy,
      ReorderedField, ReorderedReference, ReorderedExport, ReorderedGuardrail, Total, HeaderCheck, DataPolicyValid;
    forall p, q | p in b.dataPolicies && q in c.dataPolicies
      ensures ReorderedPolicy(p, q) <==> CanonPolicy(o)(p) == CanonPolicy(o)(q)
    {
      PolicyAlike(p, q, o);
    }
    forall p, q | p in b.fieldPolicies && q in c.fieldPolicies
      ensures ReorderedField(p, q) <==> CanonField(o)(p) == CanonField(o)(q)
    {
      FieldAlike(p, q, o);
    }
    hide FieldPolicyValid, WellFormed;
    OthersAlike(o);
    ReorderedImages(ReorderedPolicy, CanonPolicy(o), b.dataPolicies, c.dataPolicies);
    ReorderedImages(ReorderedField, CanonField(o), b.fieldPolicies, c.fieldPolicies);
    ReorderedImages(ReorderedReference, CanonReference, b.referencePolicies, c.referencePolicies);
    ReorderedImages(ReorderedExport, CanonExport, b.exportPolicies, c.exportPolicies);
    ReorderedImages(ReorderedGuardrail, CanonGuardrail(o), b.guardrails, c.guardrails);
  }

  lemma RewrittenDecided(b: AccessBundle, now: int, o: Orders)
    requires WellFormed(b, now)
    ensures Ordering(GrantLeq) && Separates(GrantLeq, b.functionGrants)
    ensures Ordering(DataLeq) && Separates(DataLeq, Map(CanonPolicy(o), b.dataPolicies))
    ensures Ordering(FieldLeq) && Separates(FieldLeq, Map(CanonField(o), b.fieldPolicies))
    ensures Ordering(ReferenceLeq) && Separates(ReferenceLeq, Map(CanonReference, b.referencePolicies))
    ensures Ordering(ExportLeq) && Separates(ExportLeq, Map(CanonExport, b.exportPolicies))
    ensures Ordering(GuardrailLeq) && Separates(GuardrailLeq, Map(CanonGuardrail(o), b.guardrails))
  {
    hide HeaderCheck, DistinctKeys, Sort, Map, GrantValid, DataPolicyValid, FieldPolicyValid, ReferenceCheck,
      ExportCheck, GuardrailValid, StringLeq, CanonPolicy, CanonField, CanonReference, CanonExport, CanonGuardrail;
    GrantsDecided(b.functionGrants);
    RewrittenFields(b.fieldPolicies, o);
    RewrittenReferences(b.referencePolicies);
    RewrittenOthers(b.dataPolicies, b.exportPolicies, b.guardrails, o);
    FieldsDecided(Map(CanonField(o), b.fieldPolicies));
    ReferencesDecided(Map(CanonReference, b.referencePolicies));
    OthersDecided(Map(CanonPolicy(o), b.dataPolicies), Map(CanonExport, b.exportPolicies),
                  Map(CanonGuardrail(o), b.guardrails));
  }

  lemma RewrittenFields(s: seq<FieldPolicy>, o: Orders)
    requires (forall p | p in s :: FieldPolicyValid(p)) && DistinctKeys(s, FieldKey)
    ensures var t := Map(CanonField(o), s); (forall p | p in t :: FieldPolicyValid(p)) && DistinctKeys(t, FieldKey)
  {
    hide Map, Sort, FieldPolicyValid, DistinctKeys;
    forall p | p in s
      ensures FieldPolicyValid(CanonField(o)(p))
    {
      CanonFieldValid(p, o);
    }
    MapMembers(CanonField(o), s);
    RewrittenKeys(FieldLeq, CanonField(o), FieldKey, s);
  }

  lemma RewrittenReferences(s: seq<ReferencePolicy>)
    requires (forall p | p in s :: ReferenceCheck(p).Pass?) && DistinctKeys(s, ReferenceKey)
    ensures var t := Map(CanonReference, s);
            (forall p | p in t :: ReferenceCheck(p).Pass?) && DistinctKeys(t, ReferenceKey)
  {
    hide Map, Sort, ReferenceCheck, DistinctKeys;
    forall p | p in s
      ensures ReferenceCheck(CanonReference(p)).Pass?
    {
      CanonReferenceValid(p);
    }
    MapMembers(CanonReference, s);
    RewrittenKeys(ReferenceLeq, CanonReference, ReferenceKey, s);
  }

  lemma RewrittenOthers(data: seq<DataPolicy>, exports: seq<ExportPolicy>, guardrails: seq<Guardrail>, o: Orders)
    requires DistinctKeys(data, DataKey) && DistinctKeys(exports, ExportKey) && DistinctKeys(guardrails, GuardrailKey)
    ensures DistinctKeys(Map(CanonPolicy(o), data), DataKey) && DistinctKeys(Map(CanonExport, exports), ExportKey)
    ensures DistinctKeys(Map(CanonGuardrail(o), guardrails), GuardrailKey)
  {
    hide Map, Sort, DistinctKeys, CanonScopes, Canon, CanonCondition, IsZero;
    RewrittenKeys(DataLeq, CanonPolicy(o), DataKey, data);
    RewrittenKeys(ExportLeq, CanonExport, ExportKey, exports);
    RewrittenKeys(GuardrailLeq, CanonGuardrail(o), GuardrailKey, guardrails);
  }

  /** Two well-formed bundles have the same canonical form exactly when one is a reordering of the other: of its lists,
      its scopes, and the predicates, rules and fields inside its entries. */
  lemma CanonicalBundleIsComplete(b: AccessBundle, c: AccessBundle, now: int, o: Orders)
    requires Total(o) && WellFormed(b, now)
    ensures CanonBundle(b, o) == CanonBundle(c, o) <==> SameHeader(b, c) && SameEntries(b, c)
  {
    RewrittenDecided(b, now, o);
    EntriesAlike(b, c, now, o);
    StringsAlike(b.subject.orgScopeIds, c.subject.orgScopeIds);
    StringsAlike(b.subject.reportingScopeUserIds, c.subject.reportingScopeUserIds);
    hide Sort, Map, WellFormed, StringLeq, Ordering, Separates, CanonPolicy, CanonField, CanonReference, CanonExport,
      CanonGuardrail, SameEntries, Total;
    SortedAlike(GrantLeq, b.functionGrants, c.functionGrants);
    SortedAlike(DataLeq, Map(CanonPolicy(o), b.dataPolicies), Map(CanonPolicy(o), c.dataPolicies));
    SortedAlike(FieldLeq, Map(CanonField(o), b.fieldPolicies), Map(CanonField(o), c.fieldPolicies));
    SortedAlike(ReferenceLeq, Map(CanonReference, b.referencePolicies), Map(CanonReference, c.referencePolicies));
    SortedAlike(ExportLeq, Map(CanonExport, b.exportPolicies), Map(CanonExport, c.exportPolicies));
    SortedAlike(GuardrailLeq, Map(CanonGuardrail(o), b.guardrails), Map(CanonGuardrail(o), c.guardrails));
  }

  /** Shuffling the lists of a well-formed bundle leaves its canonical form, and so its serialisation, the same. */
  lemma BundleOrderIndependent(b: AccessBundle, c: AccessBundle, now: int, o: Orders)
    requires Total(o) && WellFormed(b, now) && SameHeader(b, c)
    requires multiset(b.functionGrants) == multiset(c.functionGrants)
    requires multiset(b.dataPolicies) == multiset(c.dataPolicies)
    requires multiset(b.fieldPolicies) == multiset(c.fieldPolicies)
    requires multiset(b.referencePolicies) == multiset(c.referencePolicies)
    requires multiset(b.exportPolicies) == multiset(c.exportPolicies)
    requires multiset(b.guardrails) == multiset(c.guardrails)
    ensures CanonBundle(b, o) == CanonBundle(c, o)
  {
    hide Sort, Map, WellFormed, CanonBundle, CanonPolicy, CanonField, CanonReference, CanonExport, CanonGuardrail,
      SameHeader, SameEntries, Total;
    EntriesAlike(b, c, now, o);
    MapPermuted(CanonPolicy(o), b.dataPolicies, c.dataPolicies);
    MapPermuted(CanonField(o), b.fieldPolicies, c.fieldPolicies);
    MapPermuted(CanonReference, b.referencePolicies, c.referencePolicies);
    MapPermuted(CanonExport, b.exportPolicies, c.exportPolicies);
    MapPermuted(CanonGuardrail(o), b.guardrails, c.guardrails);
    CanonicalBundleIsComplete(b, c, now, o);
  }

  // ----- Idempotence -----

  lemma {:induction false} SortOfSorted<T(!new)>(leq: (T, T) -> bool, s: seq<T>)
    requires Ordering(leq) && Sorted(leq, s)
    ensures Sort(leq, s) == s
  {
    if s != [] {
      SortOfSorted(leq, s[1..]);
      assert s == [s[0]] + s[1..];
    }
  }

  lemma {:induction false} FilterAlike<T>(p: T -> bool, q: T -> bool, s: seq<T>)
    requires forall x | x in s :: p(x) == q(x)
    ensures Filter(p, s) == Filter(q, s)
  {
    if s != [] {
      FilterAlike(p, q, s[1..]);
    }
  }

  lemma CanonConditionTwice(c: Option<Predicate>, o: Orders)
    requires Total(o)
    ensures CanonCondition(CanonCondition(c, o), o) == CanonCondition(c, o)
  {
    hide Canon, Total;
    if c.Some? {
      CanonIdempotent(c.value, o);
    }
  }

  lemma CanonPolicyTwice(p: DataPolicy, o: Orders)
    requires Total(o)
    ensures CanonPolicy(o)(CanonPolicy(o)(p)) == CanonPolicy(o)(p)
  {
    hide Canon, Total, IsZero;
    CanonIdempotent(p.condition, o);
    FilterAlike(Listed(CanonScopes(p.dataScopes)), Listed(p.dataScopes), SCOPES);
  }

  lemma StringsTwice(s: seq<string>)
    ensures Sort(StringLeq, Sort(StringLeq, s)) == Sort(StringLeq, s)
  {
    StringOrder();
    hide StringLeq;
    SortTwice(StringLeq, s);
  }

  lemma CanonRuleTwice(r: FieldRule, o: Orders)
    requires Total(o)
    ensures CanonRule(o)(CanonRule(o)(r)) == CanonRule(o)(r)
  {
    hide Sort, CanonCondition, Total;
    StringsTwice(r.actions);
    CanonConditionTwice(r.condition, o);
  }

  lemma RulesOrdered()
    ensures Ordering(RuleLeq)
  {
    StringOrder();
    hide StringLeq;
  }

  lemma CanonFieldTwice(p: FieldPolicy, o: Orders)
    requires Total(o)
    ensures CanonField(o)(CanonField(o)(p)) == CanonField(o)(p)
  {
    hide Sort, Map, CanonRule, Total, RuleLeq;
    var rules := Map(CanonRule(o), p.rules);
    var sorted := Sort(RuleLeq, rules);
    RulesOrdered();
    SortSorted(RuleLeq, rules);
    SameMembers(sorted, rules);
    forall r | r in sorted
      ensures CanonRule(o)(r) == r
    {
      var i :| 0 <= i < |rules| && rules[i] == r;
      CanonRuleTwice(p.rules[i], o);
    }
    MapFixed(CanonRule(o), sorted);
    SortOfSorted(RuleLeq, sorted);
  }

  lemma RewrittenTwice<T(!new)>(leq: (T, T) -> bool, f: T -> T, s: seq<T>)
    requires forall x | x in s :: f(f(x)) == f(x)
    ensures multiset(Map(f, Sort(leq, Map(f, s)))) == multiset(Map(f, s))
  {
    hide Sort;
    var m := Map(f, s);
    assert Map(f, m) == m;
    MapPermuted(f, Sort(leq, m), m);
  }

  /** The canonical form of a well-formed bundle is its own canonical form. */
  lemma CanonBundleIdempotent(b: AccessBundle, now: int, o: Orders)
    requires WellFormed(b, now) && Total(o)
    ensures CanonBundle(CanonBundle(b, o), o) == CanonBundle(b, o)
  {
    hide Sort, Map, WellFormed, Total, CanonPolicy, CanonField, CanonReference, CanonExport, CanonGuardrail, StringLeq;
    forall p | p in b.dataPolicies
      ensures CanonPolicy(o)(CanonPolicy(o)(p)) == CanonPolicy(o)(p)
    {
      CanonPolicyTwice(p, o);
    }
    forall p | p in b.fieldPolicies
      ensures CanonField(o)(CanonField(o)(p)) == CanonField(o)(p)
    {
      CanonFieldTwice(p, o);
    }
    EntriesTwice(o);
    RewrittenTwice(DataLeq, CanonPolicy(o), b.dataPolicies);
    RewrittenTwice(FieldLeq, CanonField(o), b.fieldPolicies);
    RewrittenTwice(ReferenceLeq, CanonReference, b.referencePolicies);
    RewrittenTwice(ExportLeq, CanonExport, b.exportPolicies);
    RewrittenTwice(GuardrailLeq, CanonGuardrail(o), b.guardrails);
    hide SameEntries;
    EntriesAlike(b, CanonBundle(b, o), now, o);
    CanonicalBundleIsComplete(b, CanonBundle(b, o), now, o);
  }

  lemma EntriesTwice(o: Orders)
    requires Total(o)
    ensures forall p :: CanonReference(CanonReference(p)) == CanonReference(p)
    ensures forall p :: CanonExport(CanonExport(p)) == CanonExport(p)
    ensures forall g :: CanonGuardrail(o)(CanonGuardrail(o)(g)) == CanonGuardrail(o)(g)
  {
    hide Sort, CanonCondition, Total;
    forall p: ReferencePolicy {
      StringsTwice(p.displayFields);
    }
    forall p: ExportPolicy {
      StringsTwice(p.fields);
    }
    forall g: Guardrail {
      CanonConditionTwice(g.condition, o);
    }
  }
}
