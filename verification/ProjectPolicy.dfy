/** The authoring policies of project roles: bounded validation, compilation to predicates, and normalisation. */
module ProjectPolicy {
  import opened Wrappers
  import opened Text
  import opened Lists
  import opened Contract
  import opened Validation
  import opened Context
  import opened Evaluator

  datatype PolicySegment = PolicySegment(direction: Direction, relationFieldKey: string, targetObjectKey: string)

  datatype ProjectDataPolicy = ProjectDataPolicy(
    operator: string, path: seq<PolicySegment>, fieldKey: string, subjectClaim: string,
        children: seq<ProjectDataPolicy>)

  const MAXIMUM_DEPTH := 8
  const MAXIMUM_NODES := 64

  function Op(p: ProjectDataPolicy): string {
    Lower(Trim(p.operator))
  }

  predicate ScalarClaim(claim: string) {
    claim in {"id", "workspace_id", "org_id", "support_org_id"}
  }

  predicate CollectionClaim(claim: string) {
    claim in {"org_scope_ids", "support_org_scope_ids", "reporting_scope_user_ids"}
  }

  // ----- Validation with a shared node counter -----

  /** What a group or a leaf needs besides its children. */
  function NodeCheck(p: ProjectDataPolicy): Check {
    var bare := p.path == [] && Blank(p.fieldKey) && Blank(p.subjectClaim);
    match Op(p)
    case "and" => Require(|p.children| >= 2 && bare, "identity.project_data_policy_invalid")
    case "or" => Require(|p.children| >= 2 && bare, "identity.project_data_policy_invalid")
    case "not" => Require(|p.children| == 1 && bare, "identity.project_data_policy_invalid")
    case "eq" => LeafCheck(p, ScalarClaim(Trim(p.subjectClaim)))
    case "in" => LeafCheck(p, CollectionClaim(Trim(p.subjectClaim)))
    case _ => Fail("identity.project_data_policy_operator_invalid")
  }

  predicate SegmentComplete(s: PolicySegment) {
    !s.direction.OtherDirection? && !Blank(s.relationFieldKey) && !Blank(s.targetObjectKey)
  }

  function LeafCheck(p: ProjectDataPolicy, claimFits: bool): Check {
    Then(Require(p.children == [] && !Blank(p.fieldKey) && |p.path| <= 3, "identity.project_data_policy_invalid"),
    Then(Require(forall s | s in p.path :: SegmentComplete(s), "identity.project_data_policy_relation_invalid"),
         Require(claimFits, "identity.project_data_policy_claim_invalid")))
  }

  /** The outcome of a walk and the counter it leaves behind. */
  datatype Counted = Counted(check: Check, nodes: nat)

  /** What `validateProjectDataPolicy` returns and counts. */
  function ValidateAt(p: ProjectDataPolicy, depth: nat, nodes: nat): Counted
    decreases p, 1
  {
    if depth > MAXIMUM_DEPTH || nodes + 1 > MAXIMUM_NODES then
        Counted(Fail("identity.project_data_policy_limit_exceeded"), nodes + 1)
    else if NodeCheck(p).Fail? then Counted(NodeCheck(p), nodes + 1)
    else ValidateEach(p.children, depth + 1, nodes + 1)
  }

  function ValidateEach(ps: seq<ProjectDataPolicy>, depth: nat, nodes: nat): Counted
    decreases ps, 0
  {
    if ps == [] then Counted(Pass, nodes)
    else
      var head := ValidateAt(ps[0], depth, nodes);
      if head.check.Fail? then head else ValidateEach(ps[1..], depth, head.nodes)
  }

  /** The `*int` every level of the walk increments. */
  class NodeCounter {
    var count: nat

    constructor ()
      ensures count == 0
    {
      count := 0;
    }
  }

  /** `validateProjectDataPolicy`. */
  method ValidateNode(p: ProjectDataPolicy, depth: nat, nodes: NodeCounter) returns (r: Check)
    modifies nodes
    ensures Counted(r, nodes.count) == ValidateAt(p, depth, old(nodes.count))
    decreases p
  {
    hide NodeCheck;
    nodes.count := nodes.count + 1;
    if depth > MAXIMUM_DEPTH || nodes.count > MAXIMUM_NODES {
      return Fail("identity.project_data_policy_limit_exceeded");
    }
    r := NodeCheck(p);
    if r.Fail? { return; }
    for i := 0 to |p.children|
      invariant ValidateEach(p.children[i..], depth + 1, nodes.count) == ValidateAt(p, depth, old(nodes.count))
    {
      assert p.children[i..][0] == p.children[i] && p.children[i..][1..] == p.children[i + 1..];
      r := ValidateNode(p.children[i], depth + 1, nodes);
      if r.Fail? { return; }
    }
    return Pass;
  }

  /** `ProjectDataPolicy.Validate`. */
  method Validate(p: ProjectDataPolicy) returns (r: Check)
    ensures r == ValidateAt(p, 0, 0).check
  {
    var nodes := new NodeCounter();
    r := ValidateNode(p, 0, nodes);
  }

  // ----- What validation accepts -----

  predicate WellFormedPolicy(p: ProjectDataPolicy) {
    NodeCheck(p).Pass? && forall c | c in p.children :: WellFormedPolicy(c)
  }

  function Height(p: ProjectDataPolicy): nat
    decreases p, 1
  {
    if p.children == [] then 0 else 1 + MaxHeight(p.children)
  }

  function MaxHeight(ps: seq<ProjectDataPolicy>): nat
    decreases ps, 0
  {
    if ps == [] then 0
    else if Height(ps[0]) >= MaxHeight(ps[1..]) then Height(ps[0]) else MaxHeight(ps[1..])
  }

  function Size(p: ProjectDataPolicy): nat
    decreases p, 1
  {
    1 + SizeEach(p.children)
  }

  function SizeEach(ps: seq<ProjectDataPolicy>): nat
    decreases ps, 0
  {
    if ps == [] then 0 else Size(ps[0]) + SizeEach(ps[1..])
  }

  lemma {:induction false} ValidateAtMeaning(p: ProjectDataPolicy, depth: nat, nodes: nat)
    ensures var r := ValidateAt(p, depth, nodes);
            && (r.check.Pass? <==>
                  WellFormedPolicy(p) && depth + Height(p) <= MAXIMUM_DEPTH && nodes + Size(p) <= MAXIMUM_NODES)
            && (r.check.Pass? ==> r.nodes == nodes + Size(p))
    decreases p, 1
  {
    hide NodeCheck;
    if depth <= MAXIMUM_DEPTH && nodes + 1 <= MAXIMUM_NODES && NodeCheck(p).Pass? {
      ValidateEachMeaning(p.children, depth + 1, nodes + 1);
    }
  }

  lemma {:induction false} ValidateEachMeaning(ps: seq<ProjectDataPolicy>, depth: nat, nodes: nat)
    requires nodes <= MAXIMUM_NODES
    ensures var r := ValidateEach(ps, depth, nodes);
            && (r.check.Pass? <==>
                  && (forall p | p in ps :: WellFormedPolicy(p))
                  && (ps != [] ==> depth + MaxHeight(ps) <= MAXIMUM_DEPTH) && nodes + SizeEach(ps) <= MAXIMUM_NODES)
            && (r.check.Pass? ==> r.nodes == nodes + SizeEach(ps))
    decreases ps, 0
  {
    hide WellFormedPolicy, Height, Size, ValidateAt;
    if ps != [] {
      assert ps[0] in ps && forall p | p in ps[1..] :: p in ps;
      assert forall p | p in ps :: p == ps[0] || p in ps[1..];
      ValidateAtMeaning(ps[0], depth, nodes);
      var head := ValidateAt(ps[0], depth, nodes);
      if head.check.Pass? {
        ValidateEachMeaning(ps[1..], depth, head.nodes);
      }
    }
  }

  /** The walk with its counter accepts exactly the well-formed trees of at most 8 levels below the root and 64
      nodes. */
  lemma ValidationLimits(p: ProjectDataPolicy)
    ensures ValidateAt(p, 0, 0).check.Pass? <==> WellFormedPolicy(p) && Height(p) <= 8 && Size(p) <= 64
  {
    ValidateAtMeaning(p, 0, 0);
  }

  // ----- Compilation -----

  /** `strings.EqualFold(operator, "in")`, on the operator as written. */
  predicate FoldsToIn(operator: string) {
    operator in {"in", "In", "iN", "IN"}
  }

  function CompileSegments(path: seq<PolicySegment>): (r: seq<RelationSegment>)
    ensures |r| == |path|
  {
    if path == [] then []
    else [RelationSegment(path[0].direction, Trim(path[0].relationFieldKey),
        Trim(path[0].targetObjectKey))] + CompileSegments(path[1..])
  }

  function Reference(claim: string): string {
    "$subject." + claim
  }

  /** `compileProjectDataPolicy`, on a validated policy. */
  function Compile(p: ProjectDataPolicy): Predicate
    requires WellFormedPolicy(p)
    decreases p, 1
  {
    match Op(p)
    case "and" => ZERO_PREDICATE.(all := CompileEach(p.children))
    case "or" => ZERO_PREDICATE.(anyOf := CompileEach(p.children))
    case "not" => ZERO_PREDICATE.(not := Some(Compile(p.children[0])))
    case _ =>
      Predicate(Trim(p.fieldKey), CompileSegments(p.path), if FoldsToIn(p.operator) then In else Eq,
                Str(Reference(Trim(p.subjectClaim))), [], [], None)
  }

  function CompileEach(ps: seq<ProjectDataPolicy>): (r: seq<Predicate>)
    requires forall p | p in ps :: WellFormedPolicy(p)
    ensures |r| == |ps|
    decreases ps, 0
  {
    if ps == [] then [] else [Compile(ps[0])] + CompileEach(ps[1..])
  }

  // ----- What a policy means -----

  function ScalarValue(claim: string, subject: Subject): string {
    match claim
    case "id" => subject.subjectId
    case "workspace_id" => subject.workspaceId
    case "org_id" => subject.orgId
    case _ => subject.supportOrgId
  }

  function CollectionValue(claim: string, subject: Subject): seq<string> {
    match claim
    case "org_scope_ids" => subject.orgScopeIds
    case "support_org_scope_ids" => subject.supportOrgScopeIds
    case _ => subject.reportingScopeUserIds
  }

  predicate FactIn(facts: ResourceFacts, fact: string, values: seq<string>) {
    fact in facts && facts[fact].Str? && facts[fact].s in values
  }

  /** What a comparison across a relation path would find: path, operator, field and claim. Relations are resolved
      outside the repository, so meanings are stated for every way they may turn out. */
  type Relations = (seq<RelationSegment>, string, string, string) -> bool

  /** A field compared with a claim of the subject. */
  predicate LeafDenotes(p: ProjectDataPolicy, facts: ResourceFacts, subject: Subject, relations: Relations) {
    var claim := Trim(p.subjectClaim);
    if p.path != [] then relations(CompileSegments(p.path), Op(p), Trim(p.fieldKey), claim)
    else if Op(p) == "in" then FactIn(facts, Trim(p.fieldKey), CollectionValue(claim, subject))
    else FactIn(facts, Trim(p.fieldKey), [ScalarValue(claim, subject)])
  }

  /** The plain reading of an authored policy: and, or, not, and comparisons. */
  predicate Denotes(p: ProjectDataPolicy, facts: ResourceFacts, subject: Subject, relations: Relations)
    decreases p
  {
    match Op(p)
    case "and" => forall c | c in p.children :: Denotes(c, facts, subject, relations)
    case "or" => exists c | c in p.children :: Denotes(c, facts, subject, relations)
    case "not" => p.children != [] && !Denotes(p.children[0], facts, subject, relations)
    case _ => LeafDenotes(p, facts, subject, relations)
  }

  predicate PathFree(p: ProjectDataPolicy) {
    p.path == [] && forall c | c in p.children :: PathFree(c)
  }

  /** Every relation path leads to objects whose names a predicate may contain; validation asks less of an authored
      policy. */
  predicate Identified(p: ProjectDataPolicy) {
    && (forall s | s in p.path :: ValidIdentifier(Trim(s.targetObjectKey)))
    && forall c | c in p.children :: Identified(c)
  }

  /** Every `in` of the tree is written so that `EqualFold` recognises it: no space around it, only i, I, n, N in it. */
  predicate PlainIn(p: ProjectDataPolicy) {
    (Op(p) == "in" ==> FoldsToIn(p.operator)) && forall c | c in p.children :: PlainIn(c)
  }

  /** No scalar claim of the subject spells the reference that asks for it. */
  predicate PlainSubject(s: Subject) {
    && s.subjectId != "$subject.id" && s.workspaceId != "$subject.workspace_id"
    && s.orgId != "$subject.org_id" && s.supportOrgId != "$subject.support_org_id"
  }

  lemma FoldedIn(operator: string)
    requires FoldsToIn(operator)
    ensures Lower(Trim(operator)) == "in"
  {
    assert Trim(operator) == operator;
    assert Lower(operator) == [LowerChar(operator[0])] + Lower(operator[1..]);
    assert Lower(operator[1..]) == [LowerChar(operator[1])] + Lower(operator[2..]);
  }

  /** A scalar claim resolves to its value, unless that spells the reference. */
  lemma ResolveScalar(claim: string, context: EvaluationContext)
    requires ScalarClaim(claim)
    ensures ResolveValue(Str(Reference(claim)), context)
              == if ScalarValue(claim, context.subject) == Reference(claim) then
                   Err("identity.policy_subject_claim_unknown")
                 else Ok(Present(Str(ScalarValue(claim, context.subject))))
  {
    assert Reference(claim)[9..] == claim;
    assert "$subject." <= Reference(claim);
    hide Reference;
  }

  lemma PlainScalar(claim: string, subject: Subject)
    requires ScalarClaim(claim) && PlainSubject(subject)
    ensures ScalarValue(claim, subject) != Reference(claim)
  {
  }

  lemma ResolveCollection(claim: string, context: EvaluationContext)
    requires CollectionClaim(claim)
    ensures ResolveValue(Str(Reference(claim)), context)
              == Ok(Present(Strs(CollectionValue(claim, context.subject))))
  {
    assert ("$subject." + claim)[9..] == claim;
    assert "$subject." <= "$subject." + claim;
  }

  lemma {:induction false} TextElements(values: seq<string>, v: Value)
    ensures v in Map(TextValue, values) <==> v.Str? && v.s in values
  {
    var m := Map(TextValue, values);
    if v in m {
      var i :| 0 <= i < |m| && m[i] == v;
      assert values[i] in values;
    }
    if v.Str? && v.s in values {
      var i :| 0 <= i < |values| && values[i] == v.s;
      assert m[i] == v;
    }
  }

  lemma SegmentCompiled(s: PolicySegment)
    requires SegmentComplete(s)
    ensures SegmentValid(RelationSegment(s.direction, Trim(s.relationFieldKey), Trim(s.targetObjectKey))) <==>
              ValidIdentifier(Trim(s.targetObjectKey))
  {
    hide ValidIdentifier, Trim;
    TrimTwice(s.relationFieldKey);
  }

  lemma {:induction false} SegmentsCompiled(path: seq<PolicySegment>)
    requires forall s | s in path :: SegmentComplete(s)
    ensures (forall t | t in CompileSegments(path) :: SegmentValid(t)) <==>
              forall s | s in path :: ValidIdentifier(Trim(s.targetObjectKey))
  {
    hide ValidIdentifier, Trim, SegmentValid, SegmentComplete;
    if path != [] {
      var head, rest := CompileSegments(path)[0], CompileSegments(path[1..]);
      assert path[0] in path && forall s | s in path[1..] :: s in path;
      assert forall s | s in path :: s == path[0] || s in path[1..];
      SegmentsCompiled(path[1..]);
      SegmentCompiled(path[0]);
      assert CompileSegments(path) == [head] + rest;
      assert head in [head] + rest && forall t | t in rest :: t in [head] + rest;
      assert forall t | t in [head] + rest :: t == head || t in rest;
    }
  }

  function CompiledLeaf(p: ProjectDataPolicy): Predicate {
    Predicate(Trim(p.fieldKey), CompileSegments(p.path), if FoldsToIn(p.operator) then In else Eq,
              Str(Reference(Trim(p.subjectClaim))), [], [], None)
  }

  lemma LeafCompiled(p: ProjectDataPolicy)
    requires WellFormedPolicy(p) && Op(p) in {"eq", "in"}
    ensures p.children == [] && !Blank(p.fieldKey) && |p.path| <= 3 && forall s | s in p.path :: SegmentComplete(s)
    ensures Compile(p) == CompiledLeaf(p)
    ensures if Op(p) == "in" then CollectionClaim(Trim(p.subjectClaim)) else ScalarClaim(Trim(p.subjectClaim))
  {
    hide Op, Trim, Blank, SegmentComplete, CollectionClaim, ScalarClaim;
  }

  lemma ComparisonValid(q: Predicate)
    requires q.all == [] && q.anyOf == [] && q.not.None? && !Blank(q.fact) && q.operator in {Eq, In} && |q.path| <= 3
    ensures PredicateCheck(q).Pass? <==> forall t | t in q.path :: SegmentValid(t)
  {
    hide SegmentValid, Blank;
    NoPredicates();
  }

  lemma LeafIdentified(p: ProjectDataPolicy)
    requires p.children == []
    ensures Identified(p) <==> forall s | s in p.path :: ValidIdentifier(Trim(s.targetObjectKey))
  {
    hide ValidIdentifier, Trim;
  }

  lemma LeafValid(p: ProjectDataPolicy)
    requires WellFormedPolicy(p) && Op(p) in {"eq", "in"}
    ensures PredicateCheck(Compile(p)).Pass? <==> Identified(p)
  {
    LeafCompiled(p);
    SegmentsCompiled(p.path);
    LeafIdentified(p);
    TrimTwice(p.fieldKey);
    hide Op, Trim, SegmentValid, ValidIdentifier, WellFormedPolicy, Compile, SegmentComplete, Reference, FoldsToIn,
      CompileSegments, Identified, PredicateCheck;
    ComparisonValid(CompiledLeaf(p));
  }

  lemma EqualityMeaning(q: Predicate, claim: string, facts: ResourceFacts, context: EvaluationContext)
    requires ScalarClaim(claim) && q.operator == Eq && q.value == Str(Reference(claim))
    ensures var r := EvalLeaf(q, facts, context);
            && (r.Ok? ==> r.value == FactIn(facts, q.fact, [ScalarValue(claim, context.subject)]))
            && (PlainSubject(context.subject) ==> r.Ok?)
  {
    hide ResolveValue, PlainSubject, ScalarValue;
    ResolveScalar(claim, context);
    if PlainSubject(context.subject) {
      PlainScalar(claim, context.subject);
    }
  }

  lemma MembershipMeaning(q: Predicate, claim: string, facts: ResourceFacts, context: EvaluationContext)
    requires CollectionClaim(claim) && q.operator == In && q.value == Str(Reference(claim))
    ensures EvalLeaf(q, facts, context) == Ok(FactIn(facts, q.fact, CollectionValue(claim, context.subject)))
  {
    hide ResolveValue, Map;
    ResolveCollection(claim, context);
    if q.fact in facts {
      TextElements(CollectionValue(claim, context.subject), facts[q.fact]);
    }
  }

  /** A predicate answers, if it does, with the meaning of the policy, and fails only over paths and odd subjects. */
  predicate Means(r: Result<bool>, p: ProjectDataPolicy, facts: ResourceFacts, subject: Subject, relations: Relations) {
    && (r.Ok? ==> r.value == Denotes(p, facts, subject, relations))
    && (PathFree(p) && PlainSubject(subject) ==> r.Ok?)
  }

  lemma ComparisonEvaluates(q: Predicate, facts: ResourceFacts, context: EvaluationContext)
    requires q.all == [] && q.anyOf == [] && q.not.None?
    ensures q.path != [] ==> EvalPredicate(q, facts, context).Err?
    ensures q.path == [] && PredicateCheck(q).Pass? ==>
              EvalPredicate(q, facts, context) == EvalLeaf(q, facts, context)
    ensures PredicateCheck(q).Fail? ==> EvalPredicate(q, facts, context).Err?
  {
    hide PredicateCheck, EvalLeaf;
  }

  lemma DenotesLeaf(p: ProjectDataPolicy, facts: ResourceFacts, subject: Subject, relations: Relations)
    requires Op(p) in {"eq", "in"}
    ensures Denotes(p, facts, subject, relations) == LeafDenotes(p, facts, subject, relations)
  {
    hide Op, LeafDenotes;
  }

  lemma LeafMeaning(p: ProjectDataPolicy, facts: ResourceFacts, context: EvaluationContext, relations: Relations)
    requires WellFormedPolicy(p) && Op(p) in {"eq", "in"} && (Op(p) == "in" ==> FoldsToIn(p.operator))
    ensures Means(EvalPredicate(Compile(p), facts, context), p, facts, context.subject, relations)
  {
    var claim, q := Trim(p.subjectClaim), CompiledLeaf(p);
    LeafCompiled(p);
    LeafValid(p);
    LeafIdentified(p);
    if FoldsToIn(p.operator) {
      FoldedIn(p.operator);
    }
    ComparisonEvaluates(q, facts, context);
    DenotesLeaf(p, facts, context.subject, relations);
    hide PredicateCheck, EvalLeaf, EvalPredicate, Denotes, Op, Trim, PlainSubject, FactIn, ScalarValue,
      CollectionValue, WellFormedPolicy, Compile, FoldsToIn, Reference, ScalarClaim, CollectionClaim, Identified, Blank,
      ValidIdentifier;
    if p.path == [] {
      if Op(p) == "in" {
        MembershipMeaning(q, claim, facts, context);
      } else {
        EqualityMeaning(q, claim, facts, context);
      }
    }
  }

  lemma {:induction false} CompileEachMember(ps: seq<ProjectDataPolicy>, i: nat)
    requires i < |ps| && forall p | p in ps :: WellFormedPolicy(p)
    ensures CompileEach(ps)[i] == Compile(ps[i])
  {
    hide Compile, WellFormedPolicy;
    if i > 0 {
      CompileEachMember(ps[1..], i - 1);
    }
  }

  lemma GroupShape(p: ProjectDataPolicy)
    requires WellFormedPolicy(p) && Op(p) in {"and", "or", "not"}
    ensures ShapeCheck(Compile(p)).Pass? && p.path == [] && p.children != []
  {
    hide Lower, Trim;
    EmptyIsBlank();
  }

  /** An accepted policy compiles to a valid predicate exactly when its paths lead to valid names. */
  lemma {:induction false} CompiledValid(p: ProjectDataPolicy)
    requires WellFormedPolicy(p)
    ensures PredicateCheck(Compile(p)).Pass? <==> Identified(p)
    decreases p, 1
  {
    hide ShapeCheck, Lower, Trim, ValidIdentifier;
    if Op(p) in {"eq", "in"} {
      LeafValid(p);
    } else {
      GroupShape(p);
      EachCompiledValid(p.children);
      NoPredicates();
      if Op(p) == "not" {
        CompiledValid(p.children[0]);
      }
    }
  }

  lemma {:induction false} EachCompiledValid(ps: seq<ProjectDataPolicy>)
    requires forall p | p in ps :: WellFormedPolicy(p)
    ensures PredicatesCheck(CompileEach(ps)).Pass? <==> forall p | p in ps :: Identified(p)
    decreases ps, 0
  {
    hide Compile, WellFormedPolicy, Identified, PredicateCheck;
    if ps != [] {
      assert ps[0] in ps && forall p | p in ps[1..] :: p in ps;
      assert forall p | p in ps :: p == ps[0] || p in ps[1..];
      CompiledValid(ps[0]);
      EachCompiledValid(ps[1..]);
      assert CompileEach(ps)[0] == Compile(ps[0]) && CompileEach(ps)[1..] == CompileEach(ps[1..]);
    }
  }

  lemma {:induction false} PathFreeIdentified(p: ProjectDataPolicy)
    requires PathFree(p)
    ensures Identified(p)
  {
    forall c | c in p.children
      ensures Identified(c)
    {
      PathFreeIdentified(c);
    }
  }

  /** Whenever the predicate an accepted policy compiles to answers, it answers what the policy says, whatever its
      relations would find; and it always answers on policies without relation paths, unless a claim of the subject
      spells the reference that asks for it. */
  lemma {:induction false} CompiledMeaning(p: ProjectDataPolicy, facts: ResourceFacts, context: EvaluationContext,
                                           relations: Relations)
    requires WellFormedPolicy(p) && PlainIn(p)
    ensures PredicateCheck(Compile(p)).Pass? <==> Identified(p)
    ensures Means(EvalPredicate(Compile(p), facts, context), p, facts, context.subject, relations)
    decreases p, 1
  {
    CompiledValid(p);
    if Op(p) in {"eq", "in"} {
      LeafMeaning(p, facts, context, relations);
    } else {
      if PathFree(p) {
        PathFreeIdentified(p);
      }
      CompiledMeaningOfEach(p.children, facts, context, relations);
      GroupShape(p);
      if Op(p) == "not" {
        CompiledMeaning(p.children[0], facts, context, relations);
      }
      GroupMeaning(p, facts, context, relations);
    }
  }

  lemma GroupMeaning(p: ProjectDataPolicy, facts: ResourceFacts, context: EvaluationContext, relations: Relations)
    requires WellFormedPolicy(p) && Op(p) in {"and", "or", "not"}
    requires EachMeans(p.children, facts, context, relations)
    requires PathFree(p) ==> PredicateCheck(Compile(p)).Pass?
    requires Op(p) == "not" ==>
      Means(EvalPredicate(Compile(p.children[0]), facts, context), p.children[0], facts, context.subject, relations)
    ensures Means(EvalPredicate(Compile(p), facts, context), p, facts, context.subject, relations)
  {
    hide EvalAll, EvalAny, CompileEach, PredicateCheck, EvalLeaf, Lower, Trim, PlainSubject;
    GroupShape(p);
  }

  lemma NoPredicates()
    ensures PredicatesCheck([]).Pass?
  {
  }

  predicate EachMeans(ps: seq<ProjectDataPolicy>, facts: ResourceFacts, context: EvaluationContext,
                      relations: Relations)
    requires forall p | p in ps :: WellFormedPolicy(p)
  {
    var all, some := EvalAll(CompileEach(ps), facts, context), EvalAny(CompileEach(ps), facts, context);
    && (all.Ok? ==> all.value == forall c | c in ps :: Denotes(c, facts, context.subject, relations))
    && (some.Ok? ==> some.value == exists c | c in ps :: Denotes(c, facts, context.subject, relations))
    && ((forall c | c in ps :: PathFree(c)) && PlainSubject(context.subject) ==> all.Ok? && some.Ok?)
  }

  lemma EachMeansStep(ps: seq<ProjectDataPolicy>, facts: ResourceFacts, context: EvaluationContext,
                      relations: Relations)
    requires ps != [] && (forall p | p in ps :: WellFormedPolicy(p)) && forall p | p in ps[1..] :: p in ps
    requires ps[0] in ps && CompileEach(ps)[0] == Compile(ps[0]) && CompileEach(ps)[1..] == CompileEach(ps[1..])
    requires Means(EvalPredicate(Compile(ps[0]), facts, context), ps[0], facts, context.subject, relations)
    requires EachMeans(ps[1..], facts, context, relations)
    ensures EachMeans(ps, facts, context, relations)
  {
    hide Compile, CompileEach, WellFormedPolicy, PathFree, EvalPredicate, Denotes, PlainSubject;
    assert forall p | p in ps :: p == ps[0] || p in ps[1..];
  }

  lemma {:induction false} CompiledMeaningOfEach(ps: seq<ProjectDataPolicy>, facts: ResourceFacts,
                                                 context: EvaluationContext, relations: Relations)
    requires forall p | p in ps :: WellFormedPolicy(p) && PlainIn(p)
    ensures EachMeans(ps, facts, context, relations)
    decreases ps, 0
  {
    hide Compile, WellFormedPolicy, PathFree, PlainIn, EvalPredicate, Denotes, PlainSubject, PredicateCheck,
      Identified;
    if ps != [] {
      assert ps[0] in ps && forall p | p in ps[1..] :: p in ps;
      CompiledMeaning(ps[0], facts, context, relations);
      CompiledMeaningOfEach(ps[1..], facts, context, relations);
      assert CompileEach(ps)[0] == Compile(ps[0]) && CompileEach(ps)[1..] == CompileEach(ps[1..]);
      hide CompileEach;
      EachMeansStep(ps, facts, context, relations);
    }
  }
}
