/** Normalised authoring policies: what normalising keeps, and why it is needed before compiling. */
module ProjectPolicyNormal {
  import opened Wrappers
  import opened Text
  import opened Lists
  import opened Contract
  import opened Validation
  import opened Context
  import opened Evaluator
  import opened ProjectPolicy

  type PolicyOrder = (ProjectDataPolicy, ProjectDataPolicy) -> bool

  function NormalSegments(path: seq<PolicySegment>): (r: seq<PolicySegment>)
    ensures |r| == |path|
    ensures forall i | 0 <= i < |path| ::
              r[i] == PolicySegment(path[i].direction, Trim(path[i].relationFieldKey), Trim(path[i].targetObjectKey))
  {
    if path == [] then []
    else [PolicySegment(path[0].direction, Trim(path[0].relationFieldKey),
        Trim(path[0].targetObjectKey))] + NormalSegments(path[1..])
  }

  /** `canonicalProjectDataPolicy`; the order is that of the serialised children. */
  function Normal(p: ProjectDataPolicy, leq: PolicyOrder): ProjectDataPolicy
    decreases p, 1
  {
    var children := NormalEach(p.children, leq);
    ProjectDataPolicy(Op(p), NormalSegments(p.path), Trim(p.fieldKey), Trim(p.subjectClaim),
                      if Op(p) in {"and", "or"} then Sort(leq, children) else children)
  }

  function NormalEach(ps: seq<ProjectDataPolicy>, leq: PolicyOrder): (r: seq<ProjectDataPolicy>)
    ensures |r| == |ps|
    decreases ps, 0
  {
    if ps == [] then [] else [Normal(ps[0], leq)] + NormalEach(ps[1..], leq)
  }

  /** `NormalizeProjectDataPolicy`. */
  method Normalize(p: ProjectDataPolicy, leq: PolicyOrder) returns (r: Result<ProjectDataPolicy>)
    ensures r == match ValidateAt(p, 0, 0).check case Fail(code) => Err(code) case Pass => Ok(Normal(p, leq))
  {
    var valid := ProjectPolicy.Validate(p);
    if valid.Fail? { return Err(valid.code); }
    return Ok(Normal(p, leq));
  }

  lemma {:induction false} NormalEachMember(ps: seq<ProjectDataPolicy>, leq: PolicyOrder, i: nat)
    requires i < |ps|
    ensures NormalEach(ps, leq)[i] == Normal(ps[i], leq)
  {
    hide Normal;
    if i > 0 {
      NormalEachMember(ps[1..], leq, i - 1);
    }
  }

  lemma WordsTrimmed(s: string)
    requires s in {"and", "or", "not", "eq", "in"}
    ensures Trim(s) == s
  {
  }

  lemma NormalChildList(p: ProjectDataPolicy, leq: PolicyOrder)
    ensures Normal(p, leq).children
              == if Op(p) in {"and", "or"} then Sort(leq, NormalEach(p.children, leq)) else NormalEach(p.children, leq)
  {
    hide Op, Sort;
  }

  /** The children of a normalised policy are the normalised children, in some order. */
  lemma NormalChildren(p: ProjectDataPolicy, leq: PolicyOrder)
    ensures multiset(Normal(p, leq).children) == multiset(NormalEach(p.children, leq))
    ensures |Normal(p, leq).children| == |p.children|
    ensures forall i | 0 <= i < |p.children| :: Normal(p.children[i], leq) in Normal(p, leq).children
    ensures forall c | c in Normal(p, leq).children :: exists i | 0 <= i < |p.children| ::
              c == Normal(p.children[i], leq)
    ensures Op(p) !in {"and", "or"} ==> Normal(p, leq).children == NormalEach(p.children, leq)
  {
    NormalChildList(p, leq);
    hide Op, Normal, Sort;
    var each, children := NormalEach(p.children, leq), Normal(p, leq).children;
    SameMembers(each, children);
    hide NormalEach;
    forall i | 0 <= i < |p.children|
      ensures Normal(p.children[i], leq) in children
    {
      NormalEachMember(p.children, leq, i);
      assert each[i] in each;
    }
    forall c | c in children
      ensures exists i | 0 <= i < |p.children| :: c == Normal(p.children[i], leq)
    {
      var i :| 0 <= i < |each| && each[i] == c;
      NormalEachMember(p.children, leq, i);
    }
  }

  // ----- Normalising keeps the tree: its shape, its height, its size -----

  lemma SameLeaf(p: ProjectDataPolicy, q: ProjectDataPolicy, claimFits: bool)
    requires |q.children| == |p.children| && |q.path| == |p.path| && Blank(q.fieldKey) == Blank(p.fieldKey)
    requires (forall s | s in p.path :: SegmentComplete(s)) ==> (forall s | s in q.path :: SegmentComplete(s))
    ensures LeafCheck(p, claimFits).Pass? ==> LeafCheck(q, claimFits).Pass?
  {
    hide Blank, SegmentComplete;
  }

  lemma SameNode(p: ProjectDataPolicy, q: ProjectDataPolicy)
    requires NodeCheck(p).Pass? && Op(q) == Op(p) && |q.children| == |p.children| && |q.path| == |p.path|
    requires Blank(q.fieldKey) == Blank(p.fieldKey) && Blank(q.subjectClaim) == Blank(p.subjectClaim)
    requires Trim(q.subjectClaim) == Trim(p.subjectClaim)
    requires (forall s | s in p.path :: SegmentComplete(s)) ==> (forall s | s in q.path :: SegmentComplete(s))
    ensures NodeCheck(q).Pass?
  {
    hide Op, Trim, SegmentComplete, Blank, LeafCheck, ScalarClaim, CollectionClaim;
    SameLeaf(p, q, ScalarClaim(Trim(p.subjectClaim)));
    SameLeaf(p, q, CollectionClaim(Trim(p.subjectClaim)));
  }

  lemma NormalPath(path: seq<PolicySegment>)
    requires forall s | s in path :: SegmentComplete(s)
    ensures forall s | s in NormalSegments(path) :: SegmentComplete(s)
  {
    hide Trim;
    var segments := NormalSegments(path);
    forall s | s in segments
      ensures SegmentComplete(s)
    {
      var i :| 0 <= i < |segments| && segments[i] == s;
      assert SegmentComplete(path[i]);
      TrimTwice(path[i].relationFieldKey);
      TrimTwice(path[i].targetObjectKey);
    }
  }

  lemma NormalNode(p: ProjectDataPolicy, leq: PolicyOrder)
    requires NodeCheck(p).Pass?
    ensures Op(Normal(p, leq)) == Op(p) && NodeCheck(Normal(p, leq)).Pass?
  {
    OpIsWord(p);
    WordsTrimmed(Op(p));
    LowerTwice(Trim(p.operator));
    NormalChildren(p, leq);
    NormalFields(p, leq);
    TrimTwice(p.fieldKey);
    TrimTwice(p.subjectClaim);
    hide Lower, Trim, Normal, NodeCheck, SegmentComplete, NormalSegments;
    if forall s | s in p.path :: SegmentComplete(s) {
      NormalPath(p.path);
    }
    SameNode(p, Normal(p, leq));
  }

  lemma OpIsWord(p: ProjectDataPolicy)
    requires NodeCheck(p).Pass?
    ensures Op(p) in {"and", "or", "not", "eq", "in"}
  {
  }

  lemma NormalFields(p: ProjectDataPolicy, leq: PolicyOrder)
    ensures var q := Normal(p, leq);
            q.operator == Op(p) && q.path == NormalSegments(p.path) && q.fieldKey == Trim(p.fieldKey)
                && q.subjectClaim == Trim(p.subjectClaim)
  {
  }

  lemma {:induction false} NormalWellFormed(p: ProjectDataPolicy, leq: PolicyOrder)
    requires WellFormedPolicy(p)
    ensures WellFormedPolicy(Normal(p, leq)) && PlainIn(Normal(p, leq)) && (PathFree(p) ==> PathFree(Normal(p, leq)))
    decreases p
  {
    hide Normal, NodeCheck, Lower, Trim;
    NormalNode(p, leq);
    NormalFields(p, leq);
    NormalChildren(p, leq);
    forall i | 0 <= i < |p.children|
      ensures var c := Normal(p.children[i], leq); WellFormedPolicy(c) && PlainIn(c) && (PathFree(p) ==> PathFree(c))
    {
      assert p.children[i] in p.children;
      NormalWellFormed(p.children[i], leq);
    }
  }

  lemma {:induction false} MaxHeightMeaning(ps: seq<ProjectDataPolicy>, k: nat)
    ensures MaxHeight(ps) <= k <==> forall p | p in ps :: Height(p) <= k
  {
    hide Height;
    if ps != [] {
      assert ps[0] in ps && forall p | p in ps[1..] :: p in ps;
      assert forall p | p in ps :: p == ps[0] || p in ps[1..];
      MaxHeightMeaning(ps[1..], k);
    }
  }

  lemma {:induction false} SizeWithout(ps: seq<ProjectDataPolicy>, p: ProjectDataPolicy)
    requires p in ps
    ensures SizeEach(ps) == Size(p) + SizeEach(Without(ps, p))
  {
    hide Size;
    if ps[0] != p {
      SizeWithout(ps[1..], p);
      var r := Without(ps[1..], p);
      assert ([ps[0]] + r)[1..] == r;
    }
  }

  lemma {:induction false} SizePermuted(ps: seq<ProjectDataPolicy>, qs: seq<ProjectDataPolicy>)
    requires multiset(ps) == multiset(qs)
    ensures SizeEach(ps) == SizeEach(qs)
  {
    hide Size;
    SameMembers(ps, qs);
    if ps != [] {
      MultisetStep(ps);
      var u := Without(qs, ps[0]);
      assert multiset(u) == multiset(qs) - multiset{ps[0]} == multiset(ps[1..]);
      SizePermuted(ps[1..], u);
      SizeWithout(qs, ps[0]);
    }
  }

  lemma {:induction false} NormalMeasures(p: ProjectDataPolicy, leq: PolicyOrder)
    ensures Height(Normal(p, leq)) == Height(p) && Size(Normal(p, leq)) == Size(p)
    decreases p, 1
  {
    hide Normal;
    var q := Normal(p, leq);
    NormalChildren(p, leq);
    NormalMeasuresOfEach(p.children, leq);
    SizePermuted(q.children, NormalEach(p.children, leq));
    SameMembers(q.children, NormalEach(p.children, leq));
    MaxHeightMeaning(q.children, MaxHeight(p.children));
    MaxHeightMeaning(NormalEach(p.children, leq), MaxHeight(p.children));
    MaxHeightMeaning(q.children, MaxHeight(q.children));
    MaxHeightMeaning(NormalEach(p.children, leq), MaxHeight(q.children));
  }

  lemma {:induction false} NormalMeasuresOfEach(ps: seq<ProjectDataPolicy>, leq: PolicyOrder)
    ensures MaxHeight(NormalEach(ps, leq)) == MaxHeight(ps) && SizeEach(NormalEach(ps, leq)) == SizeEach(ps)
    decreases ps, 0
  {
    hide Normal, Height, Size;
    if ps != [] {
      NormalMeasures(ps[0], leq);
      NormalMeasuresOfEach(ps[1..], leq);
      assert NormalEach(ps, leq)[1..] == NormalEach(ps[1..], leq);
    }
  }

  /** A normalised policy is accepted wherever the authored one was. */
  lemma NormalAccepted(p: ProjectDataPolicy, leq: PolicyOrder)
    requires ValidateAt(p, 0, 0).check.Pass?
    ensures ValidateAt(Normal(p, leq), 0, 0).check.Pass?
  {
    hide ValidateAt, Normal, WellFormedPolicy, Height, Size;
    ValidationLimits(p);
    ValidationLimits(Normal(p, leq));
    NormalWellFormed(p, leq);
    NormalMeasures(p, leq);
  }

  // ----- Normalising keeps the meaning -----

  lemma {:induction false} NormalSegmentsCompile(path: seq<PolicySegment>)
    ensures CompileSegments(NormalSegments(path)) == CompileSegments(path)
  {
    hide Trim;
    if path != [] {
      NormalSegmentsCompile(path[1..]);
      TrimTwice(path[0].relationFieldKey);
      TrimTwice(path[0].targetObjectKey);
      assert NormalSegments(path)[1..] == NormalSegments(path[1..]);
    }
  }

  lemma NormalLeafDenotes(p: ProjectDataPolicy, leq: PolicyOrder, facts: ResourceFacts, subject: Subject,
                          relations: Relations)
    requires Op(Normal(p, leq)) == Op(p)
    ensures LeafDenotes(Normal(p, leq), facts, subject, relations) == LeafDenotes(p, facts, subject, relations)
  {
    NormalFields(p, leq);
    NormalSegmentsCompile(p.path);
    TrimTwice(p.fieldKey);
    TrimTwice(p.subjectClaim);
    hide Normal, Op, Trim, ScalarValue, CollectionValue, FactIn;
  }

  lemma {:induction false} NormalDenotes(p: ProjectDataPolicy, leq: PolicyOrder, facts: ResourceFacts,
                                         subject: Subject, relations: Relations)
    requires WellFormedPolicy(p)
    ensures Denotes(Normal(p, leq), facts, subject, relations) == Denotes(p, facts, subject, relations)
    decreases p
  {
    hide Normal, NodeCheck, Op, LeafDenotes;
    var q := Normal(p, leq);
    NodePasses(p);
    NormalNode(p, leq);
    NormalChildren(p, leq);
    NormalLeafDenotes(p, leq, facts, subject, relations);
    forall i | 0 <= i < |p.children|
      ensures Denotes(Normal(p.children[i], leq), facts, subject, relations)
                == Denotes(p.children[i], facts, subject, relations)
    {
      assert p.children[i] in p.children;
      NormalDenotes(p.children[i], leq, facts, subject, relations);
    }
    SameDenotations(p.children, q.children, leq, facts, subject, relations);
    if Op(p) == "not" && p.children != [] {
      NormalEachMember(p.children, leq, 0);
    }
  }

  lemma NodePasses(p: ProjectDataPolicy)
    requires WellFormedPolicy(p)
    ensures NodeCheck(p).Pass? && Op(p) in {"and", "or", "not", "eq", "in"}
  {
  }

  lemma SameDenotations(ps: seq<ProjectDataPolicy>, qs: seq<ProjectDataPolicy>, leq: PolicyOrder, facts: ResourceFacts,
                        subject: Subject, relations: Relations)
    requires forall i | 0 <= i < |ps| ::
               && Normal(ps[i], leq) in qs
               && Denotes(Normal(ps[i], leq), facts, subject, relations) == Denotes(ps[i], facts, subject, relations)
    requires forall c | c in qs :: exists i | 0 <= i < |ps| :: c == Normal(ps[i], leq)
    ensures (forall p | p in ps :: Denotes(p, facts, subject, relations)) <==>
              (forall c | c in qs :: Denotes(c, facts, subject, relations))
    ensures (exists p | p in ps :: Denotes(p, facts, subject, relations)) <==>
              (exists c | c in qs :: Denotes(c, facts, subject, relations))
  {
    hide Normal, Denotes;
    if forall p | p in ps :: Denotes(p, facts, subject, relations) {
      forall c | c in qs
        ensures Denotes(c, facts, subject, relations)
      {
        var i :| 0 <= i < |ps| && c == Normal(ps[i], leq);
        assert ps[i] in ps;
      }
    } else {
      var p :| p in ps && !Denotes(p, facts, subject, relations);
      var i :| 0 <= i < |ps| && ps[i] == p;
      assert Normal(ps[i], leq) in qs && !Denotes(Normal(ps[i], leq), facts, subject, relations);
    }
    if exists p | p in ps :: Denotes(p, facts, subject, relations) {
      var p :| p in ps && Denotes(p, facts, subject, relations);
      var i :| 0 <= i < |ps| && ps[i] == p;
      assert Normal(ps[i], leq) in qs && Denotes(Normal(ps[i], leq), facts, subject, relations);
    }
    if exists c | c in qs :: Denotes(c, facts, subject, relations) {
      var c :| c in qs && Denotes(c, facts, subject, relations);
      var i :| 0 <= i < |ps| && c == Normal(ps[i], leq);
      assert ps[i] in ps && Denotes(ps[i], facts, subject, relations);
    }
  }

  /** Normalised first, every accepted policy compiles to a predicate that, whenever it answers, answers what was
      authored, however its operators were spelled and whatever its relations would find. */
  lemma NormalizedMeaning(p: ProjectDataPolicy, leq: PolicyOrder, facts: ResourceFacts, context: EvaluationContext,
                          relations: Relations)
    requires ValidateAt(p, 0, 0).check.Pass?
    ensures WellFormedPolicy(Normal(p, leq))
    ensures Means(EvalPredicate(Compile(Normal(p, leq)), facts, context), p, facts, context.subject, relations)
  {
    hide ValidateAt, Normal, WellFormedPolicy, Height, Size, Denotes, EvalPredicate, PathFree, PlainIn, Compile,
      PlainSubject, Identified;
    ValidationLimits(p);
    NormalWellFormed(p, leq);
    NormalDenotes(p, leq, facts, context.subject, relations);
    CompiledMeaning(Normal(p, leq), facts, context, relations);
  }

  // ----- Compiling without normalising -----

  /** The policy with every operator spelled the way validation read it. */
  function Respelled(p: ProjectDataPolicy): ProjectDataPolicy
    decreases p, 1
  {
    p.(operator := Op(p), children := RespelledEach(p.children))
  }

  function RespelledEach(ps: seq<ProjectDataPolicy>): (r: seq<ProjectDataPolicy>)
    ensures |r| == |ps|
    decreases ps, 0
  {
    if ps == [] then [] else [Respelled(ps[0])] + RespelledEach(ps[1..])
  }

  lemma RespelledNode(p: ProjectDataPolicy)
    requires NodeCheck(p).Pass?
    ensures Op(Respelled(p)) == Op(p) && NodeCheck(Respelled(p)).Pass?
    ensures Op(p) == "in" ==> FoldsToIn(Respelled(p).operator)
    ensures FoldsToIn(Respelled(p).operator) ==> Op(p) == "in"
  {
    RespelledOp(p);
    OpIsWord(p);
    PlainlyIn(Op(p));
    hide Op, Trim, Lower, FoldsToIn, NodeCheck, SegmentComplete, Blank, RespelledEach;
    SameNode(p, Respelled(p));
  }

  lemma RespelledOp(p: ProjectDataPolicy)
    requires NodeCheck(p).Pass?
    ensures Op(Respelled(p)) == Op(p)
  {
    OpIsWord(p);
    WordsTrimmed(Op(p));
    LowerTwice(Trim(p.operator));
    hide Lower, Trim;
  }

  lemma PlainlyIn(operator: string)
    requires operator in {"and", "or", "not", "eq", "in"}
    ensures FoldsToIn(operator) <==> operator == "in"
  {
  }

  lemma {:induction false} RespelledWellFormed(p: ProjectDataPolicy)
    requires WellFormedPolicy(p)
    ensures WellFormedPolicy(Respelled(p))
    decreases p, 1
  {
    hide NodeCheck;
    RespelledNode(p);
    RespelledEachWellFormed(p.children);
  }

  lemma {:induction false} RespelledEachWellFormed(ps: seq<ProjectDataPolicy>)
    requires forall p | p in ps :: WellFormedPolicy(p)
    ensures forall q | q in RespelledEach(ps) :: WellFormedPolicy(q)
    decreases ps, 0
  {
    hide WellFormedPolicy, Respelled;
    if ps != [] {
      assert ps[0] in ps && forall p | p in ps[1..] :: p in ps;
      RespelledWellFormed(ps[0]);
      RespelledEachWellFormed(ps[1..]);
    }
  }

  /** Compilation reads the raw operator of a comparison, validation the trimmed and lowered one: the two agree on a
      policy exactly when each `in` is written plainly. An `in` with a space around it is accepted and compiled to an
      equality. */
  lemma {:induction false} CompilesAsValidated(p: ProjectDataPolicy)
    requires WellFormedPolicy(p) && WellFormedPolicy(Respelled(p))
    ensures Compile(p) == Compile(Respelled(p)) <==> PlainIn(p)
    decreases p, 1
  {
    hide NodeCheck, Lower, Trim, FoldsToIn;
    NodePasses(p);
    RespelledNode(p);
    EachCompilesAsValidated(p.children);
    LeafHasNoChildren(p);
    if FoldsToIn(p.operator) {
      FoldedIn(p.operator);
    }
    if Op(p) == "not" {
      assert RespelledEach(p.children)[0] == Respelled(p.children[0]);
      assert CompileEach(p.children) == [Compile(p.children[0])];
      assert CompileEach(RespelledEach(p.children)) == [Compile(Respelled(p.children[0]))];
    }
  }

  lemma LeafHasNoChildren(p: ProjectDataPolicy)
    requires WellFormedPolicy(p)
    ensures Op(p) in {"eq", "in"} ==> p.children == []
    ensures Op(p) == "not" ==> |p.children| == 1
  {
  }

  lemma {:induction false} EachCompilesAsValidated(ps: seq<ProjectDataPolicy>)
    requires forall p | p in ps :: WellFormedPolicy(p)
    requires forall q | q in RespelledEach(ps) :: WellFormedPolicy(q)
    ensures CompileEach(ps) == CompileEach(RespelledEach(ps)) <==> forall p | p in ps :: PlainIn(p)
    decreases ps, 0
  {
    hide WellFormedPolicy, Respelled, Compile, PlainIn;
    if ps != [] {
      var qs := RespelledEach(ps);
      assert ps[0] in ps && forall p | p in ps[1..] :: p in ps;
      assert forall p | p in ps :: p == ps[0] || p in ps[1..];
      assert qs[0] == Respelled(ps[0]) && qs[0] in qs && qs[1..] == RespelledEach(ps[1..]);
      CompilesAsValidated(ps[0]);
      EachCompilesAsValidated(ps[1..]);
      assert CompileEach(ps)[0] == Compile(ps[0]) && CompileEach(qs)[0] == Compile(qs[0]);
      assert CompileEach(ps)[1..] == CompileEach(ps[1..]) && CompileEach(qs)[1..] == CompileEach(qs[1..]);
    }
  }

  /** What the difference does: a membership test written with a space never matches a text, whatever the subject's
      scopes. */
  lemma SpacedInNeverMatches(p: ProjectDataPolicy, facts: ResourceFacts, context: EvaluationContext)
    requires WellFormedPolicy(p) && Op(p) == "in" && p.path == [] && !FoldsToIn(p.operator)
    requires Trim(p.fieldKey) in facts ==> facts[Trim(p.fieldKey)].Str?
    ensures EvalPredicate(Compile(p), facts, context) == Ok(false)
  {
    LeafCompiled(p);
    LeafValid(p);
    LeafIdentified(p);
    ComparisonEvaluates(CompiledLeaf(p), facts, context);
    ResolveCollection(Trim(p.subjectClaim), context);
    hide PredicateCheck, EvalPredicate, ResolveValue, Op, Trim, WellFormedPolicy, Compile, FoldsToIn, Reference,
      CollectionClaim, CollectionValue, Identified, Blank, ValidIdentifier;
  }

  lemma ExampleWords()
    ensures Lower(Trim(" in ")) == "in" && Trim("org_id") == "org_id" && Trim("org_scope_ids") == "org_scope_ids"
              && Trim("") == ""
  {
    assert " in "[1..] == "in ";
    assert "in "[..2] == "in";
    FoldedIn("in");
  }

  /** One such policy: accepted, meant to match, and compiled to a predicate that does not. */
  lemma SpacedInExample(relations: Relations)
    ensures var p := ProjectDataPolicy(" in ", [], "org_id", "org_scope_ids", []);
            var subject := Subject("w", "u", "", ["sales"], "", [], []);
            var facts := map["org_id" := Str("sales")];
            && ValidateAt(p, 0, 0).check.Pass? && WellFormedPolicy(p) && Denotes(p, facts, subject, relations)
            && EvalPredicate(Compile(p), facts, EvaluationContext(subject, map[])) == Ok(false)
  {
    var p := ProjectDataPolicy(" in ", [], "org_id", "org_scope_ids", []);
    ExampleWords();
    hide Trim, Lower;
    assert NodeCheck(p).Pass?;
    assert WellFormedPolicy(p);
    ValidationLimits(p);
    hide ValidateAt, EvalPredicate, Compile;
    var subject := Subject("w", "u", "", ["sales"], "", [], []);
    SpacedInNeverMatches(p, map["org_id" := Str("sales")], EvaluationContext(subject, map[]));
  }
}
