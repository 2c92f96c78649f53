/** One small bundle on which the assumptions of the main laws hold together: owners may read their documents. */
module Sample {
  import opened Wrappers
  import opened Text
  import opened Lists
  import opened Contract
  import opened Validation
  import opened Context
  import opened Evaluator
  import opened Sql
  import opened Filter
  import opened FilterText
  import opened FilterMeaning
  import opened Execution
  import opened ExecutionLaws

  const NOW := 0

  const OWNED := Predicate("owner", [], Eq, Str("$subject.id"), [], [], None)

  const READ := DataPolicy("owned", "doc", "read", Allow, [ScopeOwner], OWNED, false)

  const BUNDLE := AccessBundle(
    CURRENT_POLICY_BUNDLE_VERSION, "r1", Some(10), Subject("acme", "u1", "", [], "", [], []),
    [FunctionGrant("doc", "read", Allow)], [READ], [], [], [], [])

  const CONTEXT := EvaluationContext(BUNDLE.subject, map[])

  const SEND := ExecutionGrant("doc", "send", ["title"], "doc", "read")

  function Column(fact: string): Option<string> {
    if fact == "owner" then Some("owner_id") else None
  }

  function RowOf(owner: Value): Row {
    (column: string) => if column == "owner_id" then owner else Null
  }

  lemma {:induction false} ShortInBytes(s: string)
    ensures ByteLength(s) <= 4 * |s|
  {
    if s != "" {
      ShortInBytes(s[1..]);
    }
  }

  predicate Word(s: string) {
    0 < |s| <= 64 && forall i | 0 <= i < |s| :: 'a' <= s[i] <= 'z' || s[i] == '1'
  }

  lemma Plain(s: string)
    requires Word(s)
    ensures ValidIdentifier(s) && Trim(s) == s && !Blank(s)
  {
    assert Trimmed(s);
    ShortInBytes(s);
  }

  lemma Words()
    ensures Word("doc") && Word("read") && Word("send") && Word("r1") && Word("u1") && Word("acme") && Word("owned")
            && Word("owner")
  {
  }

  lemma Identifiers()
    ensures ValidIdentifier("doc") && ValidIdentifier("read") && ValidIdentifier("send") && ValidIdentifier("r1")
    ensures ValidIdentifier("u1") && ValidWorkspace("acme") && !Blank("owned") && !Blank("owner")
    ensures Trim("doc") == "doc" && Trim("read") == "read"
  {
    hide Word, ValidIdentifier, Trim, Trimmed, Blank;
    Words();
    Plain("doc");
    Plain("read");
    Plain("send");
    Plain("r1");
    Plain("u1");
    Plain("owned");
    Plain("owner");
    Plain("acme");
    assert Lower("acme")[0] == 'a';
  }

  lemma OneKey<T, K>(x: T, key: T -> K)
    ensures DistinctKeys([x], key)
  {
  }

  lemma OwnedValid()
    ensures PredicateCheck(OWNED).Pass? && DataPolicyValid(READ) && GrantValid(BUNDLE.functionGrants[0])
  {
    Identifiers();
    hide ValidIdentifier, Blank;
    assert ShapeCheck(OWNED).Pass?;
  }

  lemma HeaderValid()
    ensures HeaderCheck(BUNDLE, NOW).Pass?
  {
    Identifiers();
    hide ValidIdentifier, ValidWorkspace;
    assert Map(Trim, BUNDLE.subject.orgScopeIds) == [];
  }

  lemma NothingRepeats()
    ensures DistinctKeys(BUNDLE.fieldPolicies, FieldKey) && DistinctKeys(BUNDLE.referencePolicies, ReferenceKey)
    ensures DistinctKeys(BUNDLE.exportPolicies, ExportKey) && DistinctKeys(BUNDLE.guardrails, GuardrailKey)
    ensures DistinctKeys(BUNDLE.functionGrants, GrantKey) && DistinctKeys(BUNDLE.dataPolicies, DataKey)
  {
    hide DistinctKeys;
    OneKey(BUNDLE.functionGrants[0], GrantKey);
    OneKey(READ, DataKey);
    NoKeys(BUNDLE.fieldPolicies, FieldKey);
    NoKeys(BUNDLE.referencePolicies, ReferenceKey);
    NoKeys(BUNDLE.exportPolicies, ExportKey);
    NoKeys(BUNDLE.guardrails, GuardrailKey);
  }

  lemma SampleWellFormed()
    ensures WellFormed(BUNDLE, NOW)
  {
    HeaderValid();
    OwnedValid();
    NothingRepeats();
    hide HeaderCheck, DataPolicyValid, GrantValid, DistinctKeys, ReferenceCheck, ExportCheck, FieldPolicyValid,
      GuardrailValid, PredicateCheck;
  }

  lemma SampleAccepted()
    ensures BundleCheck(BUNDLE, NOW).Pass?
  {
    SampleWellFormed();
    hide BundleCheck, WellFormed;
    ValidationMeaning(BUNDLE, NOW);
  }

  lemma SampleFilter()
    ensures FilterOf(BUNDLE, "doc", "read", NOW) == Ok(RecordFilter([OWNED], [], false))
  {
    SampleAccepted();
    Identifiers();
    hide BundleCheck, ValidIdentifier;
    var start := RecordFilter([], [], false);
    assert FunctionGate(BUNDLE.functionGrants, "doc", "read").GateOpen? by {
      assert BUNDLE.functionGrants[0] in BUNDLE.functionGrants;
    }
    assert GuardrailDenies(BUNDLE.guardrails, "doc", "read") == Some([]);
    assert BUNDLE.dataPolicies[1..] == [] && start.allow + [OWNED] == [OWNED];
    assert PolicyFilter([], "doc", "read", RecordFilter([OWNED], [], false)) == Ok(RecordFilter([OWNED], [], false));
    assert PolicyFilter(BUNDLE.dataPolicies, "doc", "read", start)
        == PolicyFilter(BUNDLE.dataPolicies[1..], "doc", "read", start.(allow := start.allow + [OWNED]));
  }

  const CLAUSE := [LPar, ColumnT("owner_id"), EqT, MarkT, RPar]

  const OWNER_LEAF := Fragment([ColumnT("owner_id"), EqT, MarkT], [Str("u1")])

  lemma SampleValue()
    ensures ResolveValue(OWNED.value, CONTEXT) == Ok(Present(Str("u1")))
  {
    assert "$subject.id"[9..] == "id" && "$subject." <= "$subject.id";
  }

  lemma SampleLeaf()
    ensures PredicateSql(OWNED, CONTEXT, Column) == Ok(OWNER_LEAF)
  {
    OwnedValid();
    SampleValue();
    hide PredicateCheck, ResolveValue;
    assert Trim("owner_id") == "owner_id";
    assert LeafSql(OWNED, CONTEXT, Column) == Ok(OWNER_LEAF);
  }

  lemma SampleSql()
    ensures FilterSql(RecordFilter([OWNED], [], false), CONTEXT, Some(Column)) == Ok(Fragment(CLAUSE, [Str("u1")]))
    ensures Fragments([OWNED], CONTEXT, Column).Ok?
  {
    var leaf := OWNER_LEAF;
    SampleLeaf();
    hide PredicateSql;
    assert [OWNED][1..] == [] && Fragments([], CONTEXT, Column) == Ok([]) && [leaf] + [] == [leaf];
    assert Fragments([OWNED], CONTEXT, Column) == Ok([leaf]);
    JoinedOne([leaf], OrT);
    NothingJoined([], OrT);
    assert Parenthesised(leaf) == Fragment(CLAUSE, [Str("u1")]);
  }

  lemma SampleReads()
    ensures SearchCondition(CLAUSE, [Str("u1")]) == Some(Equals("owner_id", Str("u1")))
  {
    SampleSql();
    SampleValue();
    var filter := RecordFilter([OWNED], [], false);
    assert IntendedLeaf(OWNED, CONTEXT, Column) == Equals("owner_id", Str("u1"));
    assert IntendedAny([OWNED], CONTEXT, Column) == IntendedLeaf(OWNED, CONTEXT, Column);
    hide FilterSql, SearchCondition;
    ClauseReadsAsIntended(filter, CONTEXT, Column);
    assert IntendedFilter(filter, CONTEXT, Column) == Some(Equals("owner_id", Str("u1")));
  }

  /** The facts of a row: the owner, unless it is NULL. */
  function FactsOf(owner: Value): ResourceFacts {
    if owner == Null then map[] else map["owner" := owner]
  }

  /** The sample meets every assumption of the filter theorems for every row, NULL owners included, and shows a row to
      the subject exactly when it is the subject's own. */
  lemma SampleSelects(owner: Value)
    requires owner == Null || Comparable(owner)
    ensures Selects(CLAUSE, [Str("u1")], RowOf(owner)) <==> owner == Str("u1")
    ensures Verdict(BUNDLE, AccessRequest("doc", "read", ""), FactsOf(owner), CONTEXT, NOW).Allowed()
            <==> owner == Str("u1")
  {
    SampleFilter();
    SampleSql();
    SampleReads();
    Identifiers();
    EmptyIsBlank();
    hide FilterOf, FilterSql, Verdict, SearchCondition, Fragments, Trim, Blank, ValidIdentifier, ValidWorkspace;
    assert Projects(FactsOf(owner), Column, RowOf(owner));
    assert Settled(Equals("owner_id", Str("u1")), RowOf(owner), true);
    SqlAgreesWithEvaluator(BUNDLE, AccessRequest("doc", "read", ""), FactsOf(owner), CONTEXT, NOW, Column,
                           RowOf(owner));
  }

  /** Letting documents be sent by whoever may read them is a derivation in which nothing is lost. */
  lemma SampleDerives()
    ensures Derived(BUNDLE, SEND, NOW).Ok? && Projecting(SEND) && NothingLost(BUNDLE.dataPolicies, SEND)
  {
    SampleAccepted();
    SendAdmitted(BUNDLE);
    SendDerives(BUNDLE);
    hide BundleCheck, GrantAdmitted, Derived;
    assert |ProjectedKey(READ, SEND)| > |READ.key|;
  }

  lemma SendAdmitted(b: AccessBundle)
    requires b.functionGrants == BUNDLE.functionGrants
    ensures GrantAdmitted(b, SEND).Pass?
  {
    Identifiers();
    hide ValidIdentifier;
    assert b.functionGrants[0] in b.functionGrants;
  }

  // ----- A collision -----

  const OPEN := DataPolicy("open", "doc", "read", Allow, [ScopeAll], ZERO_PREDICATE, false)

  const HIDDEN := DataPolicy("hidden", "doc", "read", Deny, [], OWNED, false)

  /** Its key is "hidden.execution.doc.send". */
  const OTHER := DataPolicy(ProjectedKey(HIDDEN, SEND), "doc", "list", Deny, [], OWNED, false)

  /** Everybody may read every document but the subject's own, and a policy on listing has an unlucky key. */
  const COLLIDING := BUNDLE.(dataPolicies := [OPEN, HIDDEN, OTHER])

  lemma CollidingWords()
    ensures !Blank("open") && !Blank("hidden") && ValidIdentifier("list") && !Blank(OTHER.key)
  {
    ProjectedKeyNotBlank(HIDDEN, SEND);
  }

  lemma CollidingPolicies()
    ensures DataPolicyValid(OPEN) && DataPolicyValid(HIDDEN) && DataPolicyValid(OTHER)
  {
    Identifiers();
    OwnedValid();
    EmptyIsBlank();
    CollidingWords();
    hide ValidIdentifier, Blank, PredicateCheck, ProjectedKey;
    assert IsZero(ZERO_PREDICATE);
  }

  lemma CollidingKeys()
    ensures DistinctKeys([OPEN, HIDDEN, OTHER], DataKey)
  {
    assert |OTHER.key| > |HIDDEN.key| > |OPEN.key|;
    hide ProjectedKey;
    var keys := Map(DataKey, [OPEN, HIDDEN, OTHER]);
    assert keys[0] == OPEN.key && keys[1] == HIDDEN.key && keys[2] == OTHER.key;
  }

  lemma AcceptedWith(ps: seq<DataPolicy>)
    requires (forall p | p in ps :: DataPolicyValid(p)) && DistinctKeys(ps, DataKey)
    ensures BundleCheck(BUNDLE.(dataPolicies := ps), NOW).Pass?
  {
    SampleWellFormed();
    OtherPolicies(BUNDLE, ps, NOW);
    ValidationMeaning(BUNDLE.(dataPolicies := ps), NOW);
    hide *;
  }

  lemma CollidingAccepted()
    ensures BundleCheck(COLLIDING, NOW).Pass?
  {
    CollidingPolicies();
    CollidingKeys();
    hide BundleCheck, DataPolicyValid, DistinctKeys, ProjectedKey;
    AcceptedWith(COLLIDING.dataPolicies);
  }

  lemma OtherPolicies(b: AccessBundle, ps: seq<DataPolicy>, now: int)
    requires WellFormed(b, now) && (forall p | p in ps :: DataPolicyValid(p)) && DistinctKeys(ps, DataKey)
    ensures WellFormed(b.(dataPolicies := ps), now)
  {
    HeaderKept(b, b.(dataPolicies := ps), now);
    hide HeaderCheck, DistinctKeys, DataPolicyValid, GrantValid, FieldPolicyValid, ReferenceCheck, ExportCheck,
      GuardrailValid;
  }

  lemma OwnedMatches()
    ensures EvalPredicate(OWNED, FactsOf(Str("u1")), CONTEXT) == Ok(true)
  {
    OwnedValid();
    SampleValue();
    hide PredicateCheck, ResolveValue;
  }

  /** A deny that hides a record from the source, behind an allow of everything, and a third policy in its place. */
  lemma ThirdInPlace(b: AccessBundle, g: ExecutionGrant, now: int, open: DataPolicy, hidden: DataPolicy,
                     other: DataPolicy, facts: ResourceFacts, context: EvaluationContext)
    requires Derived(b, g, now).Ok? && Projecting(g) && b.dataPolicies == [open, hidden, other] && b.guardrails == []
    requires FromSource(g)(open) && UnrestrictedAllow(open) && Arrives(open, b.dataPolicies, g)
    requires FromSource(g)(hidden) && hidden.effect == Deny && Yes(PolicyMatch(hidden, facts, context))
    requires !Arrives(hidden, b.dataPolicies, g)
    requires !FromSource(g)(other) && other.resource != "*"
    requires forall p | p in b.dataPolicies :: !Names(p, g.resource, g.action)
    ensures !RecordAllowed(b, g.sourceResource, g.sourceAction, facts, context)
    ensures RecordAllowed(Derived(b, g, now).value, g.resource, g.action, facts, context)
  {
    hide BundleCheck, GrantAdmitted, EvalPredicate, DerivedPolicies, GrantWrites, Arrives, FunctionGate, AllowGate,
      ValidIdentifier, PolicyMatch;
    HiddenAtSource(b, g, hidden, facts, context);
    var left := Surviving(b.dataPolicies, g);
    assert open in left && hidden !in left && forall p | p in left :: p == open || p == other;
    OpenMatches(open, facts, context);
    assert PolicyGrants(open, g.sourceResource, g.sourceAction, facts, context);
    assert !PolicyApplies(other, g.sourceResource, g.sourceAction);
    ExecutionScope(b, g, now, facts, context);
  }

  lemma HiddenAtSource(b: AccessBundle, g: ExecutionGrant, hidden: DataPolicy, facts: ResourceFacts,
                       context: EvaluationContext)
    requires hidden in b.dataPolicies && FromSource(g)(hidden) && hidden.effect == Deny
    requires Yes(PolicyMatch(hidden, facts, context))
    ensures !RecordAllowed(b, g.sourceResource, g.sourceAction, facts, context)
  {
    hide PolicyMatch, FunctionGate, GuardrailsSilent;
    assert !PolicyQuiet(hidden, g.sourceResource, g.sourceAction, facts, context);
  }

  lemma OpenMatches(p: DataPolicy, facts: ResourceFacts, context: EvaluationContext)
    requires UnrestrictedAllow(p)
    ensures PolicyMatch(p, facts, context) == Ok(true)
  {
  }

  lemma HiddenLost()
    ensures !Arrives(HIDDEN, COLLIDING.dataPolicies, SEND) && Arrives(OPEN, COLLIDING.dataPolicies, SEND)
  {
    assert COLLIDING.dataPolicies[2] == OTHER;
    assert |ProjectedKey(OPEN, SEND)| > |OPEN.key| && |ProjectedKey(OPEN, SEND)| > |HIDDEN.key|;
    assert |ProjectedKey(OPEN, SEND)| < |OTHER.key|;
    hide ProjectedKey;
  }

  lemma CollidingShape()
    ensures Projecting(SEND) && FromSource(SEND)(OPEN) && FromSource(SEND)(HIDDEN) && !FromSource(SEND)(OTHER)
    ensures forall p | p in COLLIDING.dataPolicies :: !Names(p, SEND.resource, SEND.action)
    ensures PolicyMatch(HIDDEN, FactsOf(Str("u1")), CONTEXT) == Ok(true)
  {
    OwnedMatches();
    hide ProjectedKey, EvalPredicate;
  }

  /** The bundle hides the subject's own documents from its readers; the bundle derived from it lets them be sent. */
  lemma SampleCollision()
    ensures Derived(COLLIDING, SEND, NOW).Ok?
    ensures !RecordAllowed(COLLIDING, "doc", "read", FactsOf(Str("u1")), CONTEXT)
    ensures RecordAllowed(Derived(COLLIDING, SEND, NOW).value, "doc", "send", FactsOf(Str("u1")), CONTEXT)
  {
    CollidingAccepted();
    SendAdmitted(COLLIDING);
    SendDerives(COLLIDING);
    HiddenLost();
    CollidingShape();
    hide *;
    ThirdInPlace(COLLIDING, SEND, NOW, OPEN, HIDDEN, OTHER, FactsOf(Str("u1")), CONTEXT);
  }

  lemma SendDerives(b: AccessBundle)
    requires BundleCheck(b, NOW).Pass? && GrantAdmitted(b, SEND).Pass?
    ensures Derived(b, SEND, NOW).Ok?
  {
    hide BundleCheck, GrantAdmitted, Draft;
    FinalValidation(b, SEND, NOW);
  }
}
