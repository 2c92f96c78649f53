/** Authored policies said in the terms of their own texts: which are accepted, and which have one canonical form. */
module ProjectPolicyForms {
  import opened Text
  import opened Lists
  import opened Contract
  import opened ProjectPolicy
  import opened ProjectPolicyNormal

  // ----- Acceptance -----

  predicate Bare(p: ProjectDataPolicy) {
    p.path == [] && Trim(p.fieldKey) == "" && Trim(p.subjectClaim) == ""
  }

  predicate StepComplete(s: PolicySegment) {
    s.direction in {Forward, Reverse} && Trim(s.relationFieldKey) != "" && Trim(s.targetObjectKey) != ""
  }

  predicate Compares(p: ProjectDataPolicy, claims: set<string>) {
    Shaped(p) && Trim(p.subjectClaim) in claims
  }

  /** A policy as it may be authored: groups of other policies and nothing else, or a field compared with one claim or
      looked up in a list of claims. */
  predicate Authored(p: ProjectDataPolicy) {
    var op := Lower(Trim(p.operator));
    && (op in {"and", "or"} ==> |p.children| >= 2 && Bare(p))
    && (op == "not" ==> |p.children| == 1 && Bare(p))
    && (op == "eq" ==> Compares(p, {"id", "workspace_id", "org_id", "support_org_id"}))
    && (op == "in" ==> Compares(p, {"org_scope_ids", "support_org_scope_ids", "reporting_scope_user_ids"}))
    && op in {"and", "or", "not", "eq", "in"}
    && forall c | c in p.children :: Authored(c)
  }

  predicate Shaped(p: ProjectDataPolicy) {
    p.children == [] && Trim(p.fieldKey) != "" && |p.path| <= 3 && forall s | s in p.path :: StepComplete(s)
  }

  lemma LeafMeaning(p: ProjectDataPolicy, fits: bool)
    ensures LeafCheck(p, fits).Pass? <==> Shaped(p) && fits
  {
    hide Trim;
    assert forall s | s in p.path :: SegmentComplete(s) <==> StepComplete(s);
  }

  lemma NodeMeaning(p: ProjectDataPolicy)
    ensures NodeCheck(p).Pass? && (forall c | c in p.children :: Authored(c)) <==> Authored(p)
  {
    LeafMeaning(p, ScalarClaim(Trim(p.subjectClaim)));
    LeafMeaning(p, CollectionClaim(Trim(p.subjectClaim)));
    hide Trim, Lower, LeafCheck, Shaped;
  }

  lemma {:induction false} AuthoredMeaning(p: ProjectDataPolicy)
    ensures WellFormedPolicy(p) <==> Authored(p)
  {
    NodeMeaning(p);
    forall c | c in p.children
      ensures WellFormedPolicy(c) <==> Authored(c)
    {
      AuthoredMeaning(c);
    }
    hide NodeCheck, Authored;
  }

  /** A policy is accepted exactly when it may be authored so, is at most eight levels deep below its root, and has at
      most 64 nodes. */
  lemma AcceptedExactly(p: ProjectDataPolicy)
    ensures ValidateAt(p, 0, 0).check.Pass? <==> Authored(p) && Height(p) <= 8 && Size(p) <= 64
  {
    ValidationLimits(p);
    AuthoredMeaning(p);
    hide ValidateAt, WellFormedPolicy, Authored, Height, Size;
  }

  // ----- Canonical forms -----

  predicate SameStep(s: PolicySegment, t: PolicySegment) {
    && s.direction == t.direction && Trim(s.relationFieldKey) == Trim(t.relationFieldKey)
    && Trim(s.targetObjectKey) == Trim(t.targetObjectKey)
  }

  predicate SamePath(s: seq<PolicySegment>, t: seq<PolicySegment>) {
    |s| == |t| && forall i | 0 <= i < |s| :: SameStep(s[i], t[i])
  }

  /** The same policy up to the spelling of its operators, surrounding space, and the order under `and` and `or`. */
  ghost predicate SamePolicy(p: ProjectDataPolicy, q: ProjectDataPolicy)
    decreases p, 1
  {
    && Lower(Trim(p.operator)) == Lower(Trim(q.operator)) && SamePath(p.path, q.path)
    && Trim(p.fieldKey) == Trim(q.fieldKey) && Trim(p.subjectClaim) == Trim(q.subjectClaim)
    && if Lower(Trim(p.operator)) in {"and", "or"} then SameInSomeOrder(p.children, q.children)
       else SameInOrder(p.children, q.children)
  }

  ghost predicate SameInOrder(ps: seq<ProjectDataPolicy>, qs: seq<ProjectDataPolicy>)
    decreases ps, 0
  {
    |ps| == |qs| && (ps == [] || (SamePolicy(ps[0], qs[0]) && SameInOrder(ps[1..], qs[1..])))
  }

  ghost predicate SameInSomeOrder(ps: seq<ProjectDataPolicy>, qs: seq<ProjectDataPolicy>)
    decreases ps, 0
  {
    && |ps| == |qs|
    && (ps == [] || exists j: nat | j < |qs| :: SamePolicy(ps[0], qs[j]) && SameInSomeOrder(ps[1..], Drop(qs, j)))
  }

  function NormalOf(leq: PolicyOrder): ProjectDataPolicy -> ProjectDataPolicy {
    p => Normal(p, leq)
  }

  lemma {:induction false} NormalEachIsMap(ps: seq<ProjectDataPolicy>, leq: PolicyOrder)
    ensures NormalEach(ps, leq) == Map(NormalOf(leq), ps)
  {
    hide Normal;
    if ps != [] {
      NormalEachIsMap(ps[1..], leq);
    }
  }

  lemma {:induction false} SamePathMeaning(s: seq<PolicySegment>, t: seq<PolicySegment>)
    ensures SamePath(s, t) <==> NormalSegments(s) == NormalSegments(t)
  {
    hide Trim;
    var x, y := NormalSegments(s), NormalSegments(t);
    if x == y {
      forall i | 0 <= i < |s|
        ensures SameStep(s[i], t[i])
      {
        assert x[i] == y[i];
      }
    }
  }

  ghost predicate SameNormal(leq: PolicyOrder, p: ProjectDataPolicy, q: ProjectDataPolicy) {
    Normal(p, leq) == Normal(q, leq)
  }

  lemma {:induction false} SameInOrderMeaning(ps: seq<ProjectDataPolicy>, qs: seq<ProjectDataPolicy>, leq: PolicyOrder)
    requires TotalOrder(leq)
    ensures SameInOrder(ps, qs) <==> NormalEach(ps, leq) == NormalEach(qs, leq)
    decreases ps, 0
  {
    hide Normal, SamePolicy, TotalOrder;
    if ps != [] && qs != [] {
      SamePolicyMeaning(ps[0], qs[0], leq);
      SameInOrderMeaning(ps[1..], qs[1..], leq);
      assert NormalEach(ps, leq)[1..] == NormalEach(ps[1..], leq);
      assert NormalEach(qs, leq)[1..] == NormalEach(qs[1..], leq);
      assert NormalEach(ps, leq)[0] == Normal(ps[0], leq) && NormalEach(qs, leq)[0] == Normal(qs[0], leq);
    }
  }

  lemma {:induction false} SomeOrderReorders(ps: seq<ProjectDataPolicy>, qs: seq<ProjectDataPolicy>, leq: PolicyOrder)
    requires TotalOrder(leq)
    ensures SameInSomeOrder(ps, qs) <==> Reordered((x, y) => SameNormal(leq, x, y), ps, qs)
    decreases ps, 0
  {
    hide SamePolicy, TotalOrder, SameNormal;
    if ps != [] {
      forall j: nat | j < |qs|
        ensures SamePolicy(ps[0], qs[j]) <==> SameNormal(leq, ps[0], qs[j])
        ensures SameInSomeOrder(ps[1..], Drop(qs, j)) <==>
                  Reordered((x, y) => SameNormal(leq, x, y), ps[1..], Drop(qs, j))
      {
        NamedSame(ps[0], qs[j], leq);
        SomeOrderReorders(ps[1..], Drop(qs, j), leq);
      }
    }
  }

  lemma {:induction false} NamedSame(p: ProjectDataPolicy, q: ProjectDataPolicy, leq: PolicyOrder)
    requires TotalOrder(leq)
    ensures SamePolicy(p, q) <==> SameNormal(leq, p, q)
    decreases p, 2
  {
    SamePolicyMeaning(p, q, leq);
    hide SamePolicy, Normal, TotalOrder;
  }

  lemma SomeOrderMeaning(ps: seq<ProjectDataPolicy>, qs: seq<ProjectDataPolicy>, leq: PolicyOrder)
    requires TotalOrder(leq)
    requires SameInSomeOrder(ps, qs) <==> Reordered((x, y) => SameNormal(leq, x, y), ps, qs)
    ensures SameInSomeOrder(ps, qs) <==> Sort(leq, NormalEach(ps, leq)) == Sort(leq, NormalEach(qs, leq))
  {
    hide Normal, SameInSomeOrder, Reordered, Sort;
    ReorderedImages((x, y) => SameNormal(leq, x, y), NormalOf(leq), ps, qs);
    NormalEachIsMap(ps, leq);
    NormalEachIsMap(qs, leq);
    SortedAlike(leq, NormalEach(ps, leq), NormalEach(qs, leq));
  }

  /** Two policies have the same canonical form exactly when they are the same up to spelling, space and the order of
      groups: equal canonical texts mean equal policies. */
  lemma {:induction false} SamePolicyMeaning(p: ProjectDataPolicy, q: ProjectDataPolicy, leq: PolicyOrder)
    requires TotalOrder(leq)
    ensures SamePolicy(p, q) <==> Normal(p, leq) == Normal(q, leq)
    decreases p, 1
  {
    NormalFields(p, leq);
    NormalFields(q, leq);
    NormalChildList(p, leq);
    NormalChildList(q, leq);
    SamePathMeaning(p.path, q.path);
    if Op(p) in {"and", "or"} {
      SomeOrderReorders(p.children, q.children, leq);
      SomeOrderMeaning(p.children, q.children, leq);
    } else {
      SameInOrderMeaning(p.children, q.children, leq);
    }
    hide Normal, Trim, Lower, Sort, TotalOrder, SameInOrder, SameInSomeOrder, SamePath, NormalEach, NormalSegments;
  }

  lemma {:induction false} SegmentsTwice(path: seq<PolicySegment>)
    ensures NormalSegments(NormalSegments(path)) == NormalSegments(path)
  {
    hide Trim;
    forall s: string {
      TrimTwice(s);
    }
  }

  lemma {:induction false} NormalEachFixed(ps: seq<ProjectDataPolicy>, leq: PolicyOrder)
    requires forall p | p in ps :: Normal(p, leq) == p
    ensures NormalEach(ps, leq) == ps
  {
    hide Normal;
    if ps != [] {
      assert ps[0] in ps && forall p | p in ps[1..] :: p in ps;
      NormalEachFixed(ps[1..], leq);
    }
  }

  lemma ChildrenFixed(ps: seq<ProjectDataPolicy>, cs: seq<ProjectDataPolicy>, leq: PolicyOrder)
    requires forall p | p in ps :: Normal(Normal(p, leq), leq) == Normal(p, leq)
    requires multiset(cs) == multiset(NormalEach(ps, leq))
    ensures NormalEach(cs, leq) == cs
  {
    var each := NormalEach(ps, leq);
    SameMembers(each, cs);
    hide Normal;
    forall c | c in cs
      ensures Normal(c, leq) == c
    {
      var i :| 0 <= i < |each| && each[i] == c;
      NormalEachMember(ps, leq, i);
      assert ps[i] in ps;
    }
    NormalEachFixed(cs, leq);
  }

  lemma ChildrenSettled(p: ProjectDataPolicy, leq: PolicyOrder)
    requires TotalOrder(leq) && forall c | c in p.children :: Normal(Normal(c, leq), leq) == Normal(c, leq)
    ensures var cs := Normal(p, leq).children;
            NormalEach(cs, leq) == cs && (Op(p) in {"and", "or"} ==> Sort(leq, cs) == cs)
  {
    NormalChildList(p, leq);
    hide Normal, Op, Sort, NormalEach, TotalOrder;
    ChildrenFixed(p.children, Normal(p, leq).children, leq);
    SortTwice(leq, NormalEach(p.children, leq));
  }

  lemma NormalOnce(p: ProjectDataPolicy, leq: PolicyOrder)
    ensures var q := Normal(p, leq);
            && Op(q) == q.operator == Op(p) && NormalSegments(q.path) == q.path
            && Trim(q.fieldKey) == q.fieldKey && Trim(q.subjectClaim) == q.subjectClaim
  {
    NormalFields(p, leq);
    LowerTrimmed(Trim(p.operator));
    SegmentsTwice(p.path);
    TrimTwice(p.fieldKey);
    TrimTwice(p.subjectClaim);
    hide Normal, Trim, Lower, NormalSegments;
  }

  /** The canonical policy is the policy itself, and its own canonical form. */
  lemma {:induction false} NormalTwice(p: ProjectDataPolicy, leq: PolicyOrder)
    requires TotalOrder(leq)
    ensures Normal(Normal(p, leq), leq) == Normal(p, leq) && SamePolicy(p, Normal(p, leq))
    decreases p
  {
    var q := Normal(p, leq);
    forall c | c in p.children
      ensures Normal(Normal(c, leq), leq) == Normal(c, leq)
    {
      NormalTwice(c, leq);
    }
    ChildrenSettled(p, leq);
    NormalOnce(p, leq);
    NormalFields(q, leq);
    NormalChildList(q, leq);
    hide Normal, Op, Trim, Sort, SamePolicy, NormalSegments, NormalEach, TotalOrder;
    SamePolicyMeaning(p, q, leq);
  }
}
