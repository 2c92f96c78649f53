/** Why an authored policy is refused: the recursive walk with its shared counter comes to reading the nodes one by one,
    each parent before its children, up to the first that spoils the policy. */
module ProjectPolicyRefusals {
  import opened Wrappers
  import opened Text
  import opened ProjectPolicy
  import opened ProjectPolicyForms

  datatype Node = Node(policy: ProjectDataPolicy, depth: nat)

  /** The nodes of a policy, each parent before its children. */
  function Listed(p: ProjectDataPolicy, depth: nat): (s: seq<Node>)
    ensures s != []
    decreases p, 1
  {
    [Node(p, depth)] + ListedEach(p.children, depth + 1)
  }

  function ListedEach(ps: seq<ProjectDataPolicy>, depth: nat): seq<Node>
    decreases ps, 0
  {
    if ps == [] then [] else Listed(ps[0], depth) + ListedEach(ps[1..], depth)
  }

  /** What is wrong with a node by itself. */
  function Complaint(p: ProjectDataPolicy): Option<string> {
    var op := Lower(Trim(p.operator));
    if op !in {"and", "or", "not", "eq", "in"} then Some("identity.project_data_policy_operator_invalid")
    else if op in {"and", "or", "not"} then
      if Bare(p) && if op == "not" then |p.children| == 1 else |p.children| >= 2 then None
      else Some("identity.project_data_policy_invalid")
    else if p.children != [] || Trim(p.fieldKey) == "" || |p.path| > 3 then Some("identity.project_data_policy_invalid")
    else if exists s | s in p.path :: !StepComplete(s) then Some("identity.project_data_policy_relation_invalid")
    else if op == "eq" && Trim(p.subjectClaim) !in {"id", "workspace_id", "org_id", "support_org_id"} then
      Some("identity.project_data_policy_claim_invalid")
    else if op == "in"
            && Trim(p.subjectClaim) !in {"org_scope_ids", "support_org_scope_ids", "reporting_scope_user_ids"} then
      Some("identity.project_data_policy_claim_invalid")
    else None
  }

  /** What is wrong with the node at this position: too deep, one too many, or wrong by itself. */
  function Objection(n: Node, position: nat): Option<string> {
    if n.depth > 8 || position >= 64 then Some("identity.project_data_policy_limit_exceeded") else Complaint(n.policy)
  }

  function FirstObjection(s: seq<Node>, position: nat): Option<string> {
    if s == [] then None
    else if Objection(s[0], position).Some? then Objection(s[0], position)
    else FirstObjection(s[1..], position + 1)
  }

  lemma {:induction false} ObjectionAppended(s: seq<Node>, t: seq<Node>, position: nat)
    ensures FirstObjection(s + t, position)
              == if FirstObjection(s, position).Some? then FirstObjection(s, position)
                 else FirstObjection(t, position + |s|)
  {
    hide Objection;
    if s == [] {
      assert s + t == t;
    } else {
      assert (s + t)[1..] == s[1..] + t;
      ObjectionAppended(s[1..], t, position + 1);
    }
  }

  lemma ComplaintMeaning(p: ProjectDataPolicy)
    ensures NodeCheck(p) == CheckOf(Complaint(p))
  {
    hide Trim, Lower;
    assert forall s | s in p.path :: SegmentComplete(s) <==> StepComplete(s);
  }

  /** The walk is the reading of the list. */
  lemma {:induction false} WalkIsReading(p: ProjectDataPolicy, depth: nat, nodes: nat)
    ensures var r, s := ValidateAt(p, depth, nodes), Listed(p, depth);
            r.check == CheckOf(FirstObjection(s, nodes)) && (r.check.Pass? ==> r.nodes == nodes + |s|)
    decreases p, 1
  {
    ComplaintMeaning(p);
    hide NodeCheck, Complaint;
    ObjectionAppended([Node(p, depth)], ListedEach(p.children, depth + 1), nodes);
    if depth <= MAXIMUM_DEPTH && nodes + 1 <= MAXIMUM_NODES && NodeCheck(p).Pass? {
      EachIsReading(p.children, depth + 1, nodes + 1);
    }
  }

  lemma {:induction false} EachIsReading(ps: seq<ProjectDataPolicy>, depth: nat, nodes: nat)
    ensures var r, s := ValidateEach(ps, depth, nodes), ListedEach(ps, depth);
            r.check == CheckOf(FirstObjection(s, nodes)) && (r.check.Pass? ==> r.nodes == nodes + |s|)
    decreases ps, 0
  {
    hide ValidateAt, Objection, Listed;
    if ps != [] {
      WalkIsReading(ps[0], depth, nodes);
      ObjectionAppended(Listed(ps[0], depth), ListedEach(ps[1..], depth), nodes);
      EachIsReading(ps[1..], depth, nodes + |Listed(ps[0], depth)|);
    }
  }

  /** A policy is refused for the first of its nodes, parents before children, that is deeper than eight levels, the
      65th, or wrong by itself. */
  lemma RefusedForNode(p: ProjectDataPolicy, i: nat)
    requires i < |Listed(p, 0)| && Objection(Listed(p, 0)[i], i).Some?
    requires forall j | 0 <= j < i :: Objection(Listed(p, 0)[j], j).None?
    ensures ValidateAt(p, 0, 0).check == Fail(Objection(Listed(p, 0)[i], i).value)
  {
    WalkIsReading(p, 0, 0);
    FirstIsFirst(Listed(p, 0), 0, i);
    hide ValidateAt, Objection, Listed;
  }

  lemma {:induction false} FirstIsFirst(s: seq<Node>, position: nat, i: nat)
    requires i < |s| && Objection(s[i], position + i).Some?
    requires forall j | 0 <= j < i :: Objection(s[j], position + j).None?
    ensures FirstObjection(s, position) == Objection(s[i], position + i)
  {
    hide Objection;
    if i > 0 {
      assert s[1..][i - 1] == s[i] && forall j | 0 <= j < i - 1 :: s[1..][j] == s[j + 1];
      FirstIsFirst(s[1..], position + 1, i - 1);
    }
  }
}
