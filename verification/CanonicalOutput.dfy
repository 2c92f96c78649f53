/** What the canonical bundle looks like: the accepted one, every list of it in one fixed order. */
module CanonicalOutput {
  import opened Text
  import opened Lists
  import opened Contract
  import opened Validation
  import opened Canonical
  import opened CanonicalBundle
  import opened CanonicalOrder

  /** The list is in the order of the texts of its entries. */
  ghost predicate InOrderOf<T>(s: seq<T>, text: T -> string) {
    forall i, j | 0 <= i < j < |s| :: StringLeq(text(s[i]), text(s[j]))
  }

  ghost predicate InOrder(s: seq<string>) {
    forall i, j | 0 <= i < j < |s| :: StringLeq(s[i], s[j])
  }

  /** Where a scope stands in every canonical list. */
  function Rank(s: DataScope): nat {
    match s
    case ScopeAll => 0
    case ScopeOwner => 1
    case ScopeOrg => 2
    case ScopeOrgChild => 3
    case ScopeTargetOrg => 4
    case OtherScope(_) => 5
  }

  ghost predicate ScopesInOrder(scopes: seq<DataScope>) {
    forall i, j | 0 <= i < j < |scopes| :: Rank(scopes[i]) < Rank(scopes[j])
  }

  /** Descending priority, and the key where priorities are equal. */
  ghost predicate RulesInOrder(rules: seq<FieldRule>) {
    forall i, j | 0 <= i < j < |rules| ::
      rules[i].priority > rules[j].priority
      || (rules[i].priority == rules[j].priority && StringLeq(rules[i].key, rules[j].key))
  }

  ghost predicate Settled(b: AccessBundle) {
    && InOrder(b.subject.orgScopeIds) && InOrder(b.subject.reportingScopeUserIds)
    && InOrderOf(b.functionGrants,
           (g: FunctionGrant) => g.resource + "\0" + g.action + "\0" + if g.effect == Deny then "deny" else "allow")
    && InOrderOf(b.dataPolicies, (p: DataPolicy) => p.key)
    && (forall p | p in b.dataPolicies :: ScopesInOrder(p.dataScopes))
    && InOrderOf(b.fieldPolicies, (p: FieldPolicy) => p.resource + "\0" + p.field)
    && (forall p | p in b.fieldPolicies ::
          RulesInOrder(p.rules) && forall r | r in p.rules :: InOrder(r.actions))
    && InOrderOf(b.referencePolicies, (p: ReferencePolicy) => p.sourceResource + "\0" + p.reference)
    && (forall p | p in b.referencePolicies :: InOrder(p.displayFields))
    && InOrderOf(b.exportPolicies, (p: ExportPolicy) => p.resource)
    && (forall p | p in b.exportPolicies :: InOrder(p.fields))
    && InOrderOf(b.guardrails, (g: Guardrail) => g.key)
  }

  lemma StringsSettle(s: seq<string>)
    ensures InOrder(Sort(StringLeq, s))
  {
    StringOrder();
    SortSorted(StringLeq, s);
    hide Sort, StringLeq;
  }

  lemma ListSettles<T(!new)>(leq: (T, T) -> bool, text: T -> string, s: seq<T>)
    requires forall x, y | x in s && y in s :: leq(x, y) == StringLeq(text(x), text(y))
    requires Ordering(leq)
    ensures InOrderOf(Sort(leq, s), text)
  {
    SortSorted(leq, s);
    SameMembers(Sort(leq, s), s);
    hide Sort, StringLeq;
    var t := Sort(leq, s);
    forall i, j | 0 <= i < j < |t|
      ensures StringLeq(text(t[i]), text(t[j]))
    {
      assert t[i] in t && t[j] in t && leq(t[i], t[j]);
    }
  }

  lemma ScopesSettle(scopes: seq<DataScope>)
    ensures ScopesInOrder(CanonScopes(scopes))
  {
    assert ScopesInOrder(SCOPES);
    FilterRanked(Listed(scopes), SCOPES);
  }

  lemma {:induction false} FilterRanked(keep: DataScope -> bool, s: seq<DataScope>)
    requires ScopesInOrder(s)
    ensures ScopesInOrder(Filter(keep, s))
  {
    hide Rank;
    if s != [] {
      assert forall i, j | 0 <= i < j < |s| - 1 :: s[1..][i] == s[i + 1] && s[1..][j] == s[j + 1];
      FilterRanked(keep, s[1..]);
      forall x | x in Filter(keep, s[1..])
        ensures Rank(s[0]) < Rank(x)
      {
        var i :| 0 <= i < |s| - 1 && s[1..][i] == x;
        assert s[i + 1] == x;
      }
    }
  }

  lemma RulesSettle(p: FieldPolicy, o: Orders)
    ensures RulesInOrder(CanonField(o)(p).rules) && forall r | r in CanonField(o)(p).rules :: InOrder(r.actions)
  {
    RulesOrdered();
    SortSorted(RuleLeq, Map(CanonRule(o), p.rules));
    RewrittenMembers(RuleLeq, CanonRule(o), p.rules);
    hide Sort, Map, StringLeq, CanonCondition;
    forall r | r in p.rules
      ensures InOrder(CanonRule(o)(r).actions)
    {
      StringsSettle(r.actions);
    }
  }

  lemma EntriesSettle(b: AccessBundle, o: Orders)
    ensures var c := CanonBundle(b, o);
            && (forall p | p in c.dataPolicies :: ScopesInOrder(p.dataScopes))
            && (forall p | p in c.fieldPolicies ::
                  RulesInOrder(p.rules) && forall r | r in p.rules :: InOrder(r.actions))
            && (forall p | p in c.referencePolicies :: InOrder(p.displayFields))
            && (forall p | p in c.exportPolicies :: InOrder(p.fields))
  {
    RewrittenMembers(DataLeq, CanonPolicy(o), b.dataPolicies);
    RewrittenMembers(FieldLeq, CanonField(o), b.fieldPolicies);
    RewrittenMembers(ReferenceLeq, CanonReference, b.referencePolicies);
    RewrittenMembers(ExportLeq, CanonExport, b.exportPolicies);
    hide Sort, Map, StringLeq, CanonScopes, CanonField, RulesInOrder, InOrder, ScopesInOrder, Canon, IsZero;
    forall p: DataPolicy {
      ScopesSettle(p.dataScopes);
    }
    forall p: FieldPolicy {
      RulesSettle(p, o);
    }
    forall p: ReferencePolicy {
      StringsSettle(p.displayFields);
    }
    forall p: ExportPolicy {
      StringsSettle(p.fields);
    }
  }

  lemma TextOrder<T(!new)>(leq: (T, T) -> bool, text: T -> string)
    requires forall x, y :: leq(x, y) == StringLeq(text(x), text(y))
    ensures Ordering(leq)
  {
    StringOrder();
    hide StringLeq;
  }

  lemma ListsSettle(b: AccessBundle, o: Orders, now: int)
    requires WellFormed(b, now)
    ensures var c := CanonBundle(b, o);
            && InOrderOf(c.functionGrants, (g: FunctionGrant) =>
                   g.resource + "\0" + g.action + "\0" + if g.effect == Deny then "deny" else "allow")
            && InOrderOf(c.dataPolicies, (p: DataPolicy) => p.key)
            && InOrderOf(c.fieldPolicies, (p: FieldPolicy) => p.resource + "\0" + p.field)
            && InOrderOf(c.referencePolicies, (p: ReferencePolicy) => p.sourceResource + "\0" + p.reference)
            && InOrderOf(c.exportPolicies, (p: ExportPolicy) => p.resource)
            && InOrderOf(c.guardrails, (g: Guardrail) => g.key)
  {
    hide Sort, Map, StringLeq, HeaderCheck, DistinctKeys, DataPolicyValid, FieldPolicyValid, ReferenceCheck,
      ExportCheck, GuardrailValid, ValidIdentifier, CanonPolicy, CanonField, CanonReference, CanonExport,
      CanonGuardrail, InOrderOf;
    TextOrder(GrantLeq, GrantText);
    ListSettles(GrantLeq, (g: FunctionGrant) =>
        g.resource + "\0" + g.action + "\0" + if g.effect == Deny then "deny" else "allow", b.functionGrants);
    TextOrder(DataLeq, (p: DataPolicy) => p.key);
    ListSettles(DataLeq, (p: DataPolicy) => p.key, Map(CanonPolicy(o), b.dataPolicies));
    TextOrder(FieldLeq, (p: FieldPolicy) => p.resource + "\0" + p.field);
    ListSettles(FieldLeq, (p: FieldPolicy) => p.resource + "\0" + p.field, Map(CanonField(o), b.fieldPolicies));
    TextOrder(ReferenceLeq, (p: ReferencePolicy) => p.sourceResource + "\0" + p.reference);
    ListSettles(ReferenceLeq, (p: ReferencePolicy) => p.sourceResource + "\0" + p.reference,
        Map(CanonReference, b.referencePolicies));
    TextOrder(ExportLeq, (p: ExportPolicy) => p.resource);
    ListSettles(ExportLeq, (p: ExportPolicy) => p.resource, Map(CanonExport, b.exportPolicies));
    TextOrder(GuardrailLeq, (g: Guardrail) => g.key);
    ListSettles(GuardrailLeq, (g: Guardrail) => g.key, Map(CanonGuardrail(o), b.guardrails));
  }

  /** The canonical bundle is the bundle, rearranged: nothing is lost or added, and every list of it, nested ones
      included, stands in its own fixed order. */
  lemma CanonicalIsSettled(b: AccessBundle, now: int, o: Orders)
    requires Total(o) && WellFormed(b, now)
    ensures SameHeader(b, CanonBundle(b, o)) && SameEntries(b, CanonBundle(b, o)) && Settled(CanonBundle(b, o))
  {
    CanonBundleIdempotent(b, now, o);
    CanonicalBundleIsComplete(b, CanonBundle(b, o), now, o);
    ListsSettle(b, o, now);
    EntriesSettle(b, o);
    StringsSettle(b.subject.orgScopeIds);
    StringsSettle(b.subject.reportingScopeUserIds);
    hide WellFormed, Total, SameHeader, SameEntries, InOrder, InOrderOf, ScopesInOrder, RulesInOrder, Sort, Map;
  }

  // ----- Nested predicate lists -----

  ghost predicate ValueSettled(operator: Operator, v: Value, o: Orders) {
    && (operator in {In, NotIn} && v.Strs? ==> InOrder(v.ss))
    && (operator in {In, NotIn} && v.List? ==> Sorted(o.values, v.vs))
  }

  /** Whatever is listed under All, Any, In or NotIn is in the order of its serialisation, at every depth. */
  ghost predicate PredicateSettled(p: Predicate, o: Orders)
    decreases p
  {
    && Sorted(o.predicates, p.all) && Sorted(o.predicates, p.anyOf) && ValueSettled(p.operator, p.value, o)
    && (forall q | q in p.all || q in p.anyOf :: PredicateSettled(q, o))
    && (p.not.Some? ==> PredicateSettled(p.not.value, o))
  }

  lemma CanonValueSettled(operator: Operator, v: Value, o: Orders)
    requires Total(o)
    ensures ValueSettled(operator, CanonValue(operator, v, o), o)
  {
    if v.Strs? {
      StringsSettle(v.ss);
    }
    if v.List? {
      TotalSeparates(o.values, v.vs);
      SortSorted(o.values, v.vs);
    }
    hide Sort, InOrder, Sorted, StringLeq, Total;
  }

  lemma {:induction false} CanonIsSettled(p: Predicate, o: Orders)
    requires Total(o)
    ensures PredicateSettled(Canon(p, o), o)
    decreases p, 1
  {
    CanonValueSettled(p.operator, p.value, o);
    CanonListSettled(p.all, o);
    CanonListSettled(p.anyOf, o);
    if p.not.Some? {
      CanonIsSettled(p.not.value, o);
    }
    hide Sort, CanonList, StringLeq, Sorted, ValueSettled, CanonValue, Total;
  }

  lemma {:induction false} CanonListSettled(ps: seq<Predicate>, o: Orders)
    requires Total(o)
    ensures Sorted(o.predicates, CanonList(ps, o)) && forall q | q in CanonList(ps, o) :: PredicateSettled(q, o)
    decreases ps, 0
  {
    var each := CanonEach(ps, o);
    TotalSeparates(o.predicates, each);
    SortSorted(o.predicates, each);
    SameMembers(CanonList(ps, o), each);
    hide Canon, PredicateSettled, Sort;
    forall q | q in each
      ensures PredicateSettled(q, o)
    {
      var i :| 0 <= i < |each| && each[i] == q;
      CanonEachMember(ps, o, i);
      CanonIsSettled(ps[i], o);
    }
  }
}
