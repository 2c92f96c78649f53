/** Applying workflow workload bindings: validation rewrites them in place and holds them against a release digest. */
module Workload {
  import opened Wrappers
  import opened Text
  import opened Lists

  datatype BindingSpec = BindingSpec(
    workflowKey: string, definitionVersionId: string, definitionVersion: int, roleKey: string, actionKeys: seq<string>)

  datatype ApplicationScope = ApplicationScope(workspaceId: string, applicationKey: string)

  /** The request without its bindings, which live in the caller's array. */
  datatype Release = Release(application: ApplicationScope, releaseId: string, releaseDigest: string)

  /** SHA-256 of the JSON text, in hexadecimal: some function of the canonical bindings. */
  type Hash = seq<BindingSpec> -> string

  predicate HexDigest(d: string) {
    |d| == 64 && forall c | c in d :: '0' <= c <= '9' || 'a' <= c <= 'f'
  }

  ghost predicate Hexadecimal(hash: Hash) {
    forall bs :: HexDigest(hash(bs))
  }

  lemma HexTrimmed(d: string)
    requires HexDigest(d)
    ensures Trim(d) == d && !Blank(d)
  {
    assert d[0] in d && d[63] in d;
  }

  // ----- The digest -----

  function TrimNames(b: BindingSpec): BindingSpec {
    b.(workflowKey := Trim(b.workflowKey), definitionVersionId := Trim(b.definitionVersionId),
        roleKey := Trim(b.roleKey))
  }

  function SortedActions(keys: seq<string>): seq<string> {
    Sort(StringLeq, Map(Trim, keys))
  }

  function Tidy(b: BindingSpec): BindingSpec {
    TrimNames(b).(actionKeys := SortedActions(b.actionKeys))
  }

  predicate KeyLeq(a: BindingSpec, b: BindingSpec) {
    StringLeq(a.workflowKey, b.workflowKey)
  }

  function CanonicalBindings(bs: seq<BindingSpec>): seq<BindingSpec> {
    Sort(KeyLeq, Map(Tidy, bs))
  }

  function Digest(hash: Hash, bs: seq<BindingSpec>): string {
    hash(CanonicalBindings(bs))
  }

  method TrimEach(keys: seq<string>) returns (trimmed: seq<string>)
    ensures trimmed == Map(Trim, keys)
  {
    hide Trim;
    trimmed := keys;
    for k := 0 to |trimmed|
      invariant |trimmed| == |keys|
      invariant forall i | 0 <= i < k :: trimmed[i] == Trim(keys[i])
      invariant forall i | k <= i < |trimmed| :: trimmed[i] == keys[i]
    {
      trimmed := trimmed[k := Trim(trimmed[k])];
    }
  }

  /** `WorkflowWorkloadReleaseDigest`, which fills a copy by index. */
  method ReleaseDigest(hash: Hash, bindings: array<BindingSpec>) returns (digest: string)
    ensures digest == Digest(hash, bindings[..])
  {
    hide TrimNames, Sort;
    var canonical := bindings[..];
    for index := 0 to bindings.Length
      invariant |canonical| == bindings.Length
      invariant forall i | 0 <= i < index :: canonical[i] == Tidy(bindings[i])
      invariant forall i | index <= i < |canonical| :: canonical[i] == bindings[i]
    {
      var actions := TrimEach(bindings[index].actionKeys);
      canonical := canonical[index := TrimNames(bindings[index]).(actionKeys := Sort(StringLeq, actions))];
    }
    hide Tidy;
    assert canonical == Map(Tidy, bindings[..]);
    return hash(Sort(KeyLeq, canonical));
  }

  const RELEASE_PREFIX := "workflow-release:"

  function ReleaseId(digest: string): string {
    RELEASE_PREFIX + Trim(digest)
  }

  // ----- Validation -----

  const RELEASE_INVALID := "identity.workflow_workload_release_invalid"
  const BINDING_INVALID := "identity.workflow_workload_binding_invalid"
  const BINDING_DUPLICATE := "identity.workflow_workload_binding_duplicate"
  const ACTION_INVALID := "identity.workflow_workload_action_invalid"
  const ACTION_DUPLICATE := "identity.workflow_workload_action_duplicate"
  const DIGEST_MISMATCH := "identity.workflow_workload_release_digest_mismatch"

  function ActionsCheck(keys: seq<string>, seen: set<string>): Check {
    if keys == [] then Pass
    else if Blank(keys[0]) then Fail(ACTION_INVALID)
    else if Trim(keys[0]) in seen then Fail(ACTION_DUPLICATE)
    else ActionsCheck(keys[1..], seen + {Trim(keys[0])})
  }

  predicate Incomplete(b: BindingSpec) {
    b.workflowKey == "" || b.definitionVersionId == "" || b.definitionVersion <= 0 || b.roleKey == ""
        || b.actionKeys == []
  }

  /** The verdict on one binding whose names are trimmed, given the workflows seen before it. */
  function BindingCheck(b: BindingSpec, seen: set<string>): Check {
    if Incomplete(b) then Fail(BINDING_INVALID)
    else if b.workflowKey in seen then Fail(BINDING_DUPLICATE)
    else ActionsCheck(b.actionKeys, {})
  }

  /** What the loop over the bindings decides, and what it leaves in them: a refusal stops half way through. */
  function Processed(bs: seq<BindingSpec>, seen: set<string>): (r: (Check, seq<BindingSpec>))
    ensures |r.1| == |bs|
  {
    if bs == [] then (Pass, [])
    else
      var b := TrimNames(bs[0]);
      match BindingCheck(b, seen)
      case Fail(code) => (Fail(code), [b] + bs[1..])
      case Pass =>
        var rest := Processed(bs[1..], seen + {b.workflowKey});
        (rest.0, [Tidy(bs[0])] + rest.1)
  }

  predicate ReleaseComplete(r: Release) {
    ValidWorkspace(r.application.workspaceId) && ValidIdentifier(r.application.applicationKey)
        && !Blank(r.releaseId) && !Blank(r.releaseDigest)
  }

  predicate Names(r: Release, digest: string) {
    Trim(r.releaseDigest) == digest && Trim(r.releaseId) == ReleaseId(digest)
  }

  /** The whole of `Validate`: its verdict, and the bindings it leaves. */
  function Validated(hash: Hash, r: Release, bs: seq<BindingSpec>): (Check, seq<BindingSpec>) {
    if !ReleaseComplete(r) then (Fail(RELEASE_INVALID), bs)
    else
      var (verdict, left) := Processed(bs, {});
      if verdict.Fail? then (verdict, left)
      else
        var sorted := Sort(KeyLeq, left);
        (if Names(r, Digest(hash, sorted)) then Pass else Fail(DIGEST_MISMATCH), sorted)
  }

  lemma ActionsStep(keys: seq<string>, i: nat, seen: set<string>)
    requires i < |keys|
    ensures ActionsCheck(keys[i..], seen)
         == if Trim(keys[i]) == "" then Fail(ACTION_INVALID)
            else if Trim(keys[i]) in seen then Fail(ACTION_DUPLICATE)
            else ActionsCheck(keys[i + 1..], seen + {Trim(keys[i])})
  {
    assert keys[i..][1..] == keys[i + 1..];
  }

  lemma {:induction false} ActionsMeaning(keys: seq<string>, seen: set<string>)
    ensures var actions := Map(Trim, keys);
            ActionsCheck(keys, seen).Pass? <==>
                NoDuplicates(actions) && "" !in actions && forall a | a in actions :: a !in seen
  {
    hide Trim;
    if keys != [] {
      ActionsMeaning(keys[1..], seen + {Trim(keys[0])});
      MapTail(Trim, keys);
      var x, rest := Trim(keys[0]), Map(Trim, keys[1..]);
      DistinctTail(Trim, keys);
      assert forall a :: a in [x] + rest <==> a == x || a in rest;
    }
  }

  /** The set holds the trimmed forms of the keys. */
  ghost predicate Gathered(actions: set<string>, keys: seq<string>) {
    forall k :: k in actions <==> k in Map(Trim, keys)
  }

  lemma GatherOne(actions: set<string>, keys: seq<string>, i: nat)
    requires i < |keys| && Gathered(actions, keys[..i])
    ensures Gathered(actions + {Trim(keys[i])}, keys[..i + 1])
  {
    hide Trim, Map;
    assert keys[..i + 1] == keys[..i] + [keys[i]];
    MapSnoc(Trim, keys[..i], keys[i]);
  }

  lemma SortedAlike(keys: seq<string>, actions: set<string>, rebuilt: seq<string>)
    requires ActionsCheck(keys, {}).Pass? && Gathered(actions, keys)
    requires NoDuplicates(rebuilt) && forall k :: k in rebuilt <==> k in actions
    ensures Sort(StringLeq, rebuilt) == SortedActions(keys)
  {
    hide StringLeq, Sort, NoDuplicates, Trim, Map, ActionsCheck;
    ActionsMeaning(keys, {});
    SameMembersOnce(rebuilt, Map(Trim, keys));
    StringOrder();
    SortPermuted(StringLeq, rebuilt, Map(Trim, keys));
  }

  /** Rebuilds a binding's actions from the map of the trimmed ones, in whatever order the map yields them. */
  method RebuildActions(keys: seq<string>) returns (r: Result<seq<string>>)
    ensures match ActionsCheck(keys, {}) case Fail(code) => r == Err(code) case Pass => r == Ok(SortedActions(keys))
  {
    var actions: set<string> := {};
    assert keys[0..] == keys && keys[|keys|..] == [] && keys[..|keys|] == keys;
    assert Gathered(actions, keys[..0]);
    hide Trim, Sort, Gathered, NoDuplicates, SortedActions, ActionsCheck;
    for i := 0 to |keys|
      invariant ActionsCheck(keys, {}) == ActionsCheck(keys[i..], actions)
      invariant Gathered(actions, keys[..i])
    {
      var key := Trim(keys[i]);
      ActionsStep(keys, i, actions);
      if key == "" { return Err(ACTION_INVALID); }
      if key in actions { return Err(ACTION_DUPLICATE); }
      GatherOne(actions, keys, i);
      actions := actions + {key};
    }
    NoActionsPass(actions);
    var rebuilt := List(actions);
    SortedAlike(keys, actions, rebuilt);
    return Ok(Sort(StringLeq, rebuilt));
  }

  lemma NoActionsPass(seen: set<string>)
    ensures ActionsCheck([], seen) == Pass
  {
  }

  /** Ranging over a map's keys. */
  method List(keys: set<string>) returns (r: seq<string>)
    ensures NoDuplicates(r) && forall k :: k in r <==> k in keys
  {
    r := [];
    var pending := keys;
    while pending != {}
      invariant pending <= keys && NoDuplicates(r)
      invariant forall k :: k in r <==> k in keys && k !in pending
      decreases |pending|
    {
      var key :| key in pending;
      r := r + [key];
      pending := pending - {key};
    }
  }

  lemma ProcessedStep(bs: seq<BindingSpec>, i: nat, seen: set<string>)
    requires i < |bs|
    ensures var b := TrimNames(bs[i]);
            Processed(bs[i..], seen) == (
              match BindingCheck(b, seen)
              case Fail(code) => (Fail(code), [b] + bs[i + 1..])
              case Pass => var rest := Processed(bs[i + 1..], seen + {b.workflowKey}); (rest.0, [Tidy(bs[i])] + rest.1))
  {
    hide TrimNames, BindingCheck, Tidy;
    assert bs[i..][1..] == bs[i + 1..];
  }

  /** One turn of the loop: the binding is rewritten in its place. */
  method ProcessBinding(bindings: array<BindingSpec>, index: nat, seen: set<string>) returns (verdict: Check)
    requires index < bindings.Length
    modifies bindings
    ensures verdict == BindingCheck(TrimNames(old(bindings[index])), seen)
    ensures bindings[index] == if verdict.Fail? then TrimNames(old(bindings[index])) else Tidy(old(bindings[index]))
    ensures forall i | 0 <= i < bindings.Length && i != index :: bindings[i] == old(bindings[i])
  {
    hide Trim, ActionsCheck, SortedActions;
    var binding := TrimNames(bindings[index]);
    bindings[index] := binding;
    if Incomplete(binding) { return Fail(BINDING_INVALID); }
    if binding.workflowKey in seen { return Fail(BINDING_DUPLICATE); }
    var actions := RebuildActions(binding.actionKeys);
    if actions.Err? { return Fail(actions.code); }
    bindings[index] := binding.(actionKeys := actions.value);
    return Pass;
  }

  /** The rest of the loop's outcome completes what is done. */
  predicate Continues(whole: (Check, seq<BindingSpec>), done: seq<BindingSpec>, rest: (Check, seq<BindingSpec>)) {
    whole.0 == rest.0 && whole.1 == done + rest.1
  }

  lemma Starts(bs: seq<BindingSpec>)
    ensures Continues(Processed(bs, {}), bs[..0], Processed(bs[0..], {}))
  {
    hide Processed;
    assert bs[0..] == bs;
  }

  lemma Ends(bs: seq<BindingSpec>, now: seq<BindingSpec>, seen: set<string>, whole: (Check, seq<BindingSpec>))
    requires |now| == |bs| && Continues(whole, now[..|bs|], Processed(bs[|bs|..], seen))
    ensures whole == (Pass, now)
  {
    assert bs[|bs|..] == [] && now[..|bs|] == now && now + [] == now;
  }

  /** One turn carries the outcome on, or ends it. */
  lemma Continued(bs: seq<BindingSpec>, before: seq<BindingSpec>, after: seq<BindingSpec>, i: nat, seen: set<string>,
                  whole: (Check, seq<BindingSpec>))
    requires i < |bs| == |before| == |after| && before[i..] == bs[i..]
    requires Continues(whole, before[..i], Processed(bs[i..], seen))
    requires after[..i] == before[..i] && after[i + 1..] == before[i + 1..]
    requires after[i] == if BindingCheck(TrimNames(bs[i]), seen).Fail? then TrimNames(bs[i]) else Tidy(bs[i])
    ensures after[i + 1..] == bs[i + 1..]
    ensures match BindingCheck(TrimNames(bs[i]), seen)
            case Fail(code) => whole == (Fail(code), after)
            case Pass => Continues(whole, after[..i + 1], Processed(bs[i + 1..], seen + {TrimNames(bs[i]).workflowKey}))
  {
    hide TrimNames, BindingCheck, Tidy, Processed;
    ProcessedStep(bs, i, seen);
    assert before[i + 1..] == before[i..][1..] == bs[i..][1..] == bs[i + 1..];
    assert after == after[..i] + ([after[i]] + after[i + 1..]);
    assert after[..i + 1] == after[..i] + [after[i]];
    Associates(after[..i], [after[i]], Processed(bs[i + 1..], seen + {TrimNames(bs[i]).workflowKey}).1);
  }

  /** The loop over the bindings. */
  method ProcessBindings(bindings: array<BindingSpec>) returns (verdict: Check)
    modifies bindings
    ensures (verdict, bindings[..]) == Processed(old(bindings[..]), {})
  {
    hide Processed, TrimNames, BindingCheck, Tidy, Continues;
    ghost var bs := bindings[..];
    ghost var whole := Processed(bs, {});
    var seen: set<string> := {};
    Starts(bs);
    for index := 0 to bindings.Length
      invariant bindings[..][index..] == bs[index..]
      invariant Continues(whole, bindings[..][..index], Processed(bs[index..], seen))
    {
      ghost var before := bindings[..];
      assert before[index] == before[index..][0] == bs[index];
      var binding := TrimNames(bindings[index]);
      verdict := ProcessBinding(bindings, index, seen);
      Continued(bs, before, bindings[..], index, seen, whole);
      if verdict.Fail? { return; }
      seen := seen + {binding.workflowKey};
    }
    Ends(bs, bindings[..], seen, whole);
    return Pass;
  }

  /** `ApplyWorkflowWorkloadBindingsRequest.Validate`. */
  method Validate(hash: Hash, r: Release, bindings: array<BindingSpec>) returns (verdict: Check)
    modifies bindings
    ensures (verdict, bindings[..]) == Validated(hash, r, old(bindings[..]))
  {
    hide Processed, Digest, ReleaseComplete, Names, Sort, Trim, Blank;
    if !ReleaseComplete(r) { return Fail(RELEASE_INVALID); }
    verdict := ProcessBindings(bindings);
    if verdict.Fail? { return; }
    var sorted := Sort(KeyLeq, bindings[..]);
    forall i | 0 <= i < bindings.Length {
      bindings[i] := sorted[i];
    }
    assert bindings[..] == sorted;
    var digest := ReleaseDigest(hash, bindings);
    if !Names(r, digest) { return Fail(DIGEST_MISMATCH); }
    return Pass;
  }
}
