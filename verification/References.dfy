/** What the references in a policy's values stand for, to the evaluator and to the compiler alike. */
module References {
  import opened Wrappers
  import opened Text
  import opened Lists
  import opened Contract
  import opened Validation
  import opened Context
  import opened Evaluator
  import opened Sql
  import opened Filter

  /** A valid predicate that compares a fact of the record itself. */
  predicate Comparison(p: Predicate) {
    PredicateCheck(p).Pass? && p.path == [] && p.all == [] && p.anyOf == [] && p.not.None?
  }

  /** A value that stands for itself. */
  predicate Literal(v: Value) {
    v.Str? ==> !("$subject." <= v.s) && !("$context." <= v.s)
  }

  predicate Translatable(p: Predicate, resolve: ColumnResolver) {
    resolve(p.fact).Some? && !Blank(resolve(p.fact).value)
  }

  const NEVER := Fragment([ZeroT, EqT, OneT], [])

  lemma ComparisonIsLeaf(p: Predicate, facts: ResourceFacts, context: EvaluationContext, resolve: ColumnResolver)
    requires Comparison(p)
    ensures EvalPredicate(p, facts, context) == EvalLeaf(p, facts, context)
    ensures PredicateSql(p, context, resolve) == LeafSql(p, context, resolve)
  {
    hide PredicateCheck, EvalLeaf, LeafSql;
  }

  /** Only what a value resolves to matters. */
  lemma SameResolution(p: Predicate, v: Value, facts: ResourceFacts, context: EvaluationContext,
                       resolve: ColumnResolver)
    requires Comparison(p) && ResolveValue(v, context) == ResolveValue(p.value, context)
    ensures var q := p.(value := v);
            && EvalPredicate(p, facts, context) == EvalPredicate(q, facts, context)
            && PredicateSql(p, context, resolve) == PredicateSql(q, context, resolve)
  {
    ValueUnchecked(p, v);
    hide PredicateCheck, ResolveValue, EvalLeaf, LeafSql;
    ComparisonIsLeaf(p, facts, context, resolve);
    ComparisonIsLeaf(p.(value := v), facts, context, resolve);
    hide EvalPredicate, PredicateSql;
    SameAnswer(p, v, facts, context);
    SameClause(p, v, context, resolve);
  }

  lemma SameAnswer(p: Predicate, v: Value, facts: ResourceFacts, context: EvaluationContext)
    requires ResolveValue(v, context) == ResolveValue(p.value, context)
    ensures EvalLeaf(p.(value := v), facts, context) == EvalLeaf(p, facts, context)
  {
    hide ResolveValue, Elements;
  }

  lemma SameClause(p: Predicate, v: Value, context: EvaluationContext, resolve: ColumnResolver)
    requires ResolveValue(v, context) == ResolveValue(p.value, context)
    ensures LeafSql(p.(value := v), context, resolve) == LeafSql(p, context, resolve)
  {
    hide ResolveValue, Elements, Blank, Marks, EscapeLike;
  }

  /** Validation does not look at values. */
  lemma ValueUnchecked(p: Predicate, v: Value)
    ensures PredicateCheck(p.(value := v)) == PredicateCheck(p)
  {
  }

  // ----- Literal values -----

  /** The meaning of every comparison with a literal value: an absent fact matches nothing but `exists false`, and a
      value of the wrong kind is an error whatever the record. */
  lemma LiteralComparison(p: Predicate, facts: ResourceFacts, context: EvaluationContext)
    requires Comparison(p) && Literal(p.value)
    ensures var r, present, v := EvalPredicate(p, facts, context), p.fact in facts, p.value;
            && (p.operator == Exists ==>
                  r == if v.Bool? then Ok(present <==> v.b) else Err("identity.policy_value_invalid"))
            && (p.operator == Eq ==> r == Ok(present && facts[p.fact] == v))
            && (p.operator == Neq ==> r == Ok(present && facts[p.fact] != v))
            && (p.operator == Prefix ==>
                  (r == Ok(true) <==> present && facts[p.fact].Str? && v.Str? && v.s <= facts[p.fact].s) && r.Ok?)
            && (p.operator in {In, NotIn} && !v.Strs? && !v.List? ==> r == Err("identity.policy_value_invalid"))
            && (p.operator == In && v.List? ==> r == Ok(present && facts[p.fact] in v.vs))
            && (p.operator == NotIn && v.List? ==> r == Ok(present && facts[p.fact] !in v.vs))
            && (p.operator == In && v.Strs? ==>
                  r == Ok(present && facts[p.fact].Str? && facts[p.fact].s in v.ss))
            && (p.operator == NotIn && v.Strs? ==>
                  r == Ok(present && !(facts[p.fact].Str? && facts[p.fact].s in v.ss)))
  {
    hide PredicateCheck, Map;
    if p.value.Strs? && p.fact in facts {
      MapMembers(TextValue, p.value.ss);
    }
  }

  // ----- Claims of the request -----

  /** The text refers to the business claim of that name, in either spelling. */
  predicate RefersToClaim(v: Value, claim: string) {
    && !Blank(claim) && !("claims." <= claim) && v.Str?
    && (v.s == "$context." + claim || v.s == "$context.claims." + claim)
  }

  predicate HasClaim(context: EvaluationContext, claim: string) {
    claim in context.claims && context.claims[claim] != Null
  }

  /** A comparison with a claim the user does not have never matches and never fails, whatever its operator; neither
      does its clause select anything. */
  lemma AbsentClaim(p: Predicate, claim: string, facts: ResourceFacts, context: EvaluationContext,
                    resolve: ColumnResolver)
    requires Comparison(p) && RefersToClaim(p.value, claim) && !HasClaim(context, claim)
    ensures EvalPredicate(p, facts, context) == Ok(false)
    ensures Translatable(p, resolve) ==> PredicateSql(p, context, resolve) == Ok(NEVER)
  {
    ClaimText(p.value.s, claim);
    hide PredicateCheck, Blank;
  }

  /** A comparison with a claim the user has is the comparison with its value. */
  lemma PresentClaim(p: Predicate, claim: string, facts: ResourceFacts, context: EvaluationContext,
                     resolve: ColumnResolver)
    requires Comparison(p) && RefersToClaim(p.value, claim) && HasClaim(context, claim)
    requires Literal(context.claims[claim])
    ensures var q := p.(value := context.claims[claim]);
            && EvalPredicate(p, facts, context) == EvalPredicate(q, facts, context)
            && PredicateSql(p, context, resolve) == PredicateSql(q, context, resolve)
  {
    var v := context.claims[claim];
    ClaimText(p.value.s, claim);
    assert ResolveValue(p.value, context) == Ok(Present(v)) == ResolveValue(v, context);
    hide PredicateCheck, ResolveValue, EvalPredicate, PredicateSql;
    SameResolution(p, v, facts, context, resolve);
  }

  lemma ClaimText(text: string, claim: string)
    requires text == "$context." + claim || text == "$context.claims." + claim
    requires !("claims." <= claim)
    ensures "$context." <= text && !("$subject." <= text)
    ensures var key := text[9..]; claim == if "claims." <= key then key[7..] else key
  {
    assert text[1] == 'c' && "$subject."[1] == 's';
    if text == "$context.claims." + claim {
      assert text[9..] == "claims." + claim;
    } else {
      assert text[9..] == claim;
    }
  }

  /** A reference to a claim without a name fails the evaluation and the compilation. */
  lemma NamelessClaim(p: Predicate, claim: string, facts: ResourceFacts, context: EvaluationContext,
                      resolve: ColumnResolver)
    requires Comparison(p) && Blank(claim) && !("claims." <= claim)
    requires p.value == Str("$context." + claim) || p.value == Str("$context.claims." + claim)
    ensures EvalPredicate(p, facts, context) == Err("identity.policy_business_claim_unknown")
    ensures Translatable(p, resolve) ==>
              PredicateSql(p, context, resolve) == Err("identity.policy_business_claim_unknown")
  {
    ClaimText(p.value.s, claim);
    hide PredicateCheck, Blank;
  }

  // ----- Facts of the subject -----

  /** The names of the identity facts a policy may refer to, each with its value. */
  function IdentityFacts(s: Subject): map<string, Value> {
    map["id" := Str(s.subjectId), "workspace_id" := Str(s.workspaceId), "org_id" := Str(s.orgId),
        "support_org_id" := Str(s.supportOrgId), "org_scope_ids" := Strs(s.orgScopeIds),
        "support_org_scope_ids" := Strs(s.supportOrgScopeIds),
        "reporting_scope_user_ids" := Strs(s.reportingScopeUserIds)]
  }

  /** A comparison with a fact of the subject is the comparison with its value. */
  lemma SubjectFact(p: Predicate, name: string, facts: ResourceFacts, context: EvaluationContext,
                    resolve: ColumnResolver)
    requires Comparison(p) && p.value == Str("$subject." + name) && name in IdentityFacts(context.subject)
    requires Literal(IdentityFacts(context.subject)[name])
    ensures var q := p.(value := IdentityFacts(context.subject)[name]);
            && EvalPredicate(p, facts, context) == EvalPredicate(q, facts, context)
            && PredicateSql(p, context, resolve) == PredicateSql(q, context, resolve)
  {
    var v := IdentityFacts(context.subject)[name];
    SubjectResolves(name, context);
    hide PredicateCheck, ResolveValue, EvalPredicate, PredicateSql;
    SameResolution(p, v, facts, context, resolve);
  }

  lemma SubjectResolves(name: string, context: EvaluationContext)
    requires name in IdentityFacts(context.subject) && Literal(IdentityFacts(context.subject)[name])
    ensures var v := IdentityFacts(context.subject)[name];
            ResolveValue(Str("$subject." + name), context) == Ok(Present(v)) == ResolveValue(v, context)
  {
    SubjectText(name);
  }

  /** A reference to any other fact of the subject fails the evaluation and the compilation. */
  lemma UnknownSubjectFact(p: Predicate, name: string, facts: ResourceFacts, context: EvaluationContext,
                           resolve: ColumnResolver)
    requires Comparison(p) && p.value == Str("$subject." + name) && name !in IdentityFacts(context.subject)
    ensures EvalPredicate(p, facts, context) == Err("identity.policy_subject_claim_unknown")
    ensures Translatable(p, resolve) ==>
              PredicateSql(p, context, resolve) == Err("identity.policy_subject_claim_unknown")
  {
    SubjectText(name);
    hide PredicateCheck, Blank;
  }

  lemma SubjectText(name: string)
    ensures "$subject." <= "$subject." + name && ("$subject." + name)[9..] == name
  {
  }
}
