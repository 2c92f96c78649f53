/** The workload request said in the terms of its own texts: when it is accepted, why refused, and what it covers. */
module WorkloadMeaning {
  import opened Wrappers
  import opened Text
  import opened Lists
  import opened Workload
  import opened WorkloadLaws

  // ----- Vocabulary -----

  predicate Distinct(names: seq<string>) {
    forall i, j | 0 <= i < j < |names| :: Trim(names[i]) != Trim(names[j])
  }

  /** Named, versioned, and with distinct named actions, surrounding space aside. */
  predicate Complete(b: BindingSpec) {
    && Trim(b.workflowKey) != "" && Trim(b.definitionVersionId) != "" && b.definitionVersion > 0
    && Trim(b.roleKey) != "" && b.actionKeys != []
    && (forall a | a in b.actionKeys :: Trim(a) != "") && Distinct(b.actionKeys)
  }

  predicate NoWorkflowTwice(bs: seq<BindingSpec>) {
    forall i, j | 0 <= i < j < |bs| :: Trim(bs[i].workflowKey) != Trim(bs[j].workflowKey)
  }

  predicate Sound(bs: seq<BindingSpec>) {
    (forall b | b in bs :: Complete(b)) && NoWorkflowTwice(bs)
  }

  predicate Addressed(r: Release) {
    && ValidIdentifier(r.application.workspaceId) && Lower(Trim(r.application.workspaceId)) != "default"
    && ValidIdentifier(r.application.applicationKey)
    && Trim(r.releaseId) != "" && Trim(r.releaseDigest) != ""
  }

  /** The release carries this digest, and is named after it. */
  predicate NamedAfter(r: Release, digest: string) {
    Trim(r.releaseDigest) == digest && Trim(r.releaseId) == "workflow-release:" + Trim(digest)
  }

  lemma DistinctMeaning(names: seq<string>)
    ensures Distinct(names) <==> NoDuplicates(Map(Trim, names))
  {
    hide Trim;
    var trimmed := Map(Trim, names);
    assert forall i | 0 <= i < |names| :: trimmed[i] == Trim(names[i]);
  }

  lemma CompleteMeaning(b: BindingSpec)
    ensures Complete(b) <==> BindingComplete(b)
  {
    DistinctMeaning(b.actionKeys);
    MapMembers(Trim, b.actionKeys);
    hide Trim, Distinct, Map, NoDuplicates;
  }

  lemma SoundMeaning(bs: seq<BindingSpec>)
    ensures Sound(bs) <==> StructurallyValid(bs)
  {
    forall b: BindingSpec
      ensures Complete(b) <==> BindingComplete(b)
    {
      CompleteMeaning(b);
    }
    WorkflowTexts(bs);
    hide Complete, BindingComplete, Trim, WorkflowsOf;
  }

  lemma WorkflowTexts(bs: seq<BindingSpec>)
    ensures |WorkflowsOf(bs)| == |bs| && forall i | 0 <= i < |bs| :: WorkflowsOf(bs)[i] == Trim(bs[i].workflowKey)
  {
    hide Trim, SortedActions;
  }

  // ----- The verdict -----

  /** A request is accepted exactly when it is addressed, its bindings are sound, and the release carries their digest
      and is named after it. */
  lemma AcceptedExactly(hash: Hash, r: Release, bs: seq<BindingSpec>)
    ensures Validated(hash, r, bs).0.Pass? <==> Addressed(r) && Sound(bs) && NamedAfter(r, Digest(hash, bs))
  {
    Acceptance(hash, r, bs);
    SoundMeaning(bs);
    hide Validated, Sound, StructurallyValid, Digest, Trim, Lower, ValidIdentifier;
  }

  lemma RefusedUnaddressed(hash: Hash, r: Release, bs: seq<BindingSpec>)
    requires !Addressed(r)
    ensures Validated(hash, r, bs) == (Fail("identity.workflow_workload_release_invalid"), bs)
  {
    hide Trim, Lower, ValidIdentifier, Processed;
  }

  /** Sound bindings under another digest or name are refused as a mismatch, and left canonical. */
  lemma RefusedMismatch(hash: Hash, r: Release, bs: seq<BindingSpec>)
    requires Addressed(r) && Sound(bs) && !NamedAfter(r, Digest(hash, bs))
    ensures Validated(hash, r, bs)
              == (Fail("identity.workflow_workload_release_digest_mismatch"), CanonicalBindings(bs))
  {
    SoundMeaning(bs);
    ProcessedMeaning(bs, {});
    DigestSettled(hash, bs);
    hide Processed, Sound, StructurallyValid, Digest, Trim, Lower, ValidIdentifier, Sort, Map;
  }

  /** What is wrong with a binding, given those before it. */
  function Complaint(b: BindingSpec, before: seq<BindingSpec>): string {
    if Trim(b.workflowKey) == "" || Trim(b.definitionVersionId) == "" || b.definitionVersion <= 0
       || Trim(b.roleKey) == "" || b.actionKeys == [] then "identity.workflow_workload_binding_invalid"
    else if exists c | c in before :: Trim(c.workflowKey) == Trim(b.workflowKey) then
      "identity.workflow_workload_binding_duplicate"
    else ActionComplaint(b.actionKeys)
  }

  /** The first action that is blank or repeated decides. */
  function ActionComplaint(actions: seq<string>): string {
    if exists i | 0 <= i < |actions| :: Trim(actions[i]) == "" && Distinct(actions[..i]) then
      "identity.workflow_workload_action_invalid"
    else "identity.workflow_workload_action_duplicate"
  }

  lemma {:induction false} ActionsFail(keys: seq<string>, done: seq<string>, seen: set<string>)
    requires (forall a | a in done :: Trim(a) != "") && Distinct(done)
    requires forall t :: t in seen <==> exists a | a in done :: Trim(a) == t
    requires ActionsCheck(keys, seen).Fail?
    ensures ActionsCheck(keys, seen) == Fail(ActionComplaint(done + keys))
    decreases |keys|
  {
    hide Trim;
    var all := done + keys;
    assert all[..|done|] == done;
    if Trim(keys[0]) == "" {
      assert Trim(all[|done|]) == "" && Distinct(all[..|done|]);
    } else if Trim(keys[0]) in seen {
      var a :| a in done && Trim(a) == Trim(keys[0]);
      var k :| 0 <= k < |done| && done[k] == a;
      forall i | 0 <= i < |all| && Trim(all[i]) == ""
        ensures !Distinct(all[..i])
      {
        assert i > |done|;
        assert all[..i][k] == a && all[..i][|done|] == keys[0];
      }
    } else {
      var more := done + [keys[0]];
      assert forall a | a in more :: a in done || a == keys[0];
      assert forall a | a in done :: a in more;
      assert keys[0] in more;
      forall i, j | 0 <= i < j < |more|
        ensures Trim(more[i]) != Trim(more[j])
      {
        if j == |done| {
          assert done[i] in done;
        }
      }
      assert more + keys[1..] == all;
      ActionsFail(keys[1..], more, seen + {Trim(keys[0])});
    }
  }

  lemma BindingFails(b: BindingSpec, before: seq<BindingSpec>, seen: set<string>)
    requires forall t :: t in seen <==> exists c | c in before :: Trim(c.workflowKey) == t
    requires BindingCheck(TrimNames(b), seen).Fail?
    ensures BindingCheck(TrimNames(b), seen) == Fail(Complaint(b, before))
  {
    hide Trim, ActionsCheck, ActionComplaint;
    if ActionsCheck(b.actionKeys, {}).Fail? {
      ActionsFail(b.actionKeys, [], {});
      assert [] + b.actionKeys == b.actionKeys;
    }
  }

  lemma LoopStopsHere(bs: seq<BindingSpec>, done: seq<BindingSpec>, seen: set<string>)
    requires bs != [] && Sound(done + bs[..0]) && !Sound(done + bs[..1])
    requires forall t :: t in seen <==> exists c | c in done :: Trim(c.workflowKey) == t
    ensures Processed(bs, seen) == (Fail(Complaint(bs[0], done + bs[..0])),
                Map(Tidy, bs[..0]) + [TrimNames(bs[0])] + bs[1..])
  {
    hide Trim, Tidy, TrimNames, Complete, BindingCheck, Complaint;
    var b := bs[0];
    assert done + bs[..0] == done && done + bs[..1] == done + [b];
    BindingPasses(b, done, seen);
    SoundSnoc(done, b);
    BindingFails(b, done, seen);
    var none := Map(Tidy, bs[..0]);
    assert none == [] && none + [TrimNames(b)] + bs[1..] == [TrimNames(b)] + bs[1..];
  }

  lemma Regroup<T>(w: seq<T>, x: seq<T>, y: seq<T>, z: seq<T>)
    ensures w + (x + y + z) == (w + x) + y + z
  {
  }

  lemma {:induction false} LoopStops(bs: seq<BindingSpec>, done: seq<BindingSpec>, seen: set<string>, i: nat)
    requires i < |bs| && Sound(done + bs[..i]) && !Sound(done + bs[..i + 1])
    requires forall t :: t in seen <==> exists c | c in done :: Trim(c.workflowKey) == t
    ensures Processed(bs, seen) == (Fail(Complaint(bs[i], done + bs[..i])),
                Map(Tidy, bs[..i]) + [TrimNames(bs[i])] + bs[i + 1..])
    decreases |bs|
  {
    hide Trim, Tidy, TrimNames, Complete, BindingCheck, Complaint;
    var b := bs[0];
    BindingPasses(b, done, seen);
    if i == 0 {
      LoopStopsHere(bs, done, seen);
    } else {
      var more := done + [b];
      assert done + bs[..i] == more + bs[1..][..i - 1] && done + bs[..i + 1] == more + bs[1..][..i];
      SoundPrefix(more, bs[1..][..i - 1]);
      SoundSnoc(done, b);
      assert forall c | c in more :: c in done || c == b;
      assert b in more && forall c | c in done :: c in more;
      LoopStops(bs[1..], more, seen + {Trim(b.workflowKey)}, i - 1);
      TrimmedKey(b);
      MapTail(Tidy, bs[..i]);
      assert bs[..i][1..] == bs[1..][..i - 1] && bs[1..][i - 1] == bs[i] && bs[1..][i..] == bs[i + 1..];
      Regroup([Tidy(b)], Map(Tidy, bs[1..][..i - 1]), [TrimNames(bs[i])], bs[i + 1..]);
    }
  }

  lemma TrimmedKey(b: BindingSpec)
    ensures TrimNames(b).workflowKey == Trim(b.workflowKey)
  {
  }

  lemma BindingPasses(b: BindingSpec, before: seq<BindingSpec>, seen: set<string>)
    requires forall t :: t in seen <==> exists c | c in before :: Trim(c.workflowKey) == t
    ensures BindingCheck(TrimNames(b), seen).Pass? <==>
              Complete(b) && forall c | c in before :: Trim(c.workflowKey) != Trim(b.workflowKey)
  {
    BindingCheckMeaning(b, seen);
    CompleteMeaning(b);
    hide Trim, BindingCheck, Complete, BindingComplete;
  }

  lemma SoundSnoc(bs: seq<BindingSpec>, b: BindingSpec)
    ensures Sound(bs + [b]) <==>
              Sound(bs) && Complete(b) && forall c | c in bs :: Trim(c.workflowKey) != Trim(b.workflowKey)
  {
    hide Trim, Complete;
    var all := bs + [b];
    assert forall c :: c in all <==> c in bs || c == b;
    assert all[|bs|] == b && forall i | 0 <= i < |bs| :: all[i] == bs[i];
    if Sound(all) {
      forall c | c in bs
        ensures Trim(c.workflowKey) != Trim(b.workflowKey)
      {
        var i :| 0 <= i < |bs| && bs[i] == c;
        assert all[i] == c;
      }
    }
  }

  lemma SoundPrefix(bs: seq<BindingSpec>, rest: seq<BindingSpec>)
    requires Sound(bs + rest)
    ensures Sound(bs)
  {
    hide Trim, Complete;
    var all := bs + rest;
    assert forall c | c in bs :: c in all;
    assert forall i | 0 <= i < |bs| :: all[i] == bs[i];
  }

  /** Unsound bindings are refused at the first one that spoils them, with what is wrong with it. Those before it are
      left tidied, its own names trimmed, and those after it untouched. */
  lemma RefusedHalfway(hash: Hash, r: Release, bs: seq<BindingSpec>, i: nat)
    requires Addressed(r) && i < |bs| && Sound(bs[..i]) && !Sound(bs[..i + 1])
    ensures Validated(hash, r, bs) == (Fail(Complaint(bs[i], bs[..i])),
                Map(Tidy, bs[..i]) + [TrimNames(bs[i])] + bs[i + 1..])
  {
    assert [] + bs[..i] == bs[..i] && [] + bs[..i + 1] == bs[..i + 1];
    LoopStops(bs, [], {}, i);
    hide Trim, Lower, ValidIdentifier, Processed, Sound, Complaint, Tidy, TrimNames;
  }

  // ----- What the digest covers -----

  /** The same binding, surrounding space and the order of its actions aside. */
  predicate SameBinding(b: BindingSpec, c: BindingSpec) {
    && Trim(b.workflowKey) == Trim(c.workflowKey) && Trim(b.definitionVersionId) == Trim(c.definitionVersionId)
    && b.definitionVersion == c.definitionVersion && Trim(b.roleKey) == Trim(c.roleKey)
    && multiset(Map(Trim, b.actionKeys)) == multiset(Map(Trim, c.actionKeys))
  }

  lemma SameBindingMeaning(b: BindingSpec, c: BindingSpec)
    ensures SameBinding(b, c) <==> Tidy(b) == Tidy(c)
  {
    hide Trim, Map, Sort, StringLeq;
    StringOrder();
    Lists.SortedAlike(StringLeq, Map(Trim, b.actionKeys), Map(Trim, c.actionKeys));
  }

  /** Two sets of bindings, neither with a workflow twice, have the same digest text exactly when one is a rearrangement
      of the other up to surrounding space and the order of actions. */
  lemma SameCanonical(bs: seq<BindingSpec>, cs: seq<BindingSpec>)
    requires NoWorkflowTwice(bs)
    ensures CanonicalBindings(bs) == CanonicalBindings(cs) <==> Reordered(SameBinding, bs, cs)
  {
    forall b, c | b in bs && c in cs
      ensures SameBinding(b, c) <==> Tidy(b) == Tidy(c)
    {
      SameBindingMeaning(b, c);
    }
    ReorderedImages(SameBinding, Tidy, bs, cs);
    KeysOrdered();
    WorkflowTexts(bs);
    hide SameBinding, Reordered, Sort, Tidy, Trim, Map, Ordering, Separates, KeyLeq;
    WorkflowDecides(Map(Tidy, bs));
    Lists.SortedAlike(KeyLeq, Map(Tidy, bs), Map(Tidy, cs));
  }

  /** What is left after an accepted request: each binding in its tidy form, in the order of the workflows. */
  predicate TidyOf(b: BindingSpec, c: BindingSpec) {
    && c.workflowKey == Trim(b.workflowKey) && c.definitionVersionId == Trim(b.definitionVersionId)
    && c.definitionVersion == b.definitionVersion && c.roleKey == Trim(b.roleKey)
    && multiset(c.actionKeys) == multiset(Map(Trim, b.actionKeys))
    && forall i, j | 0 <= i < j < |c.actionKeys| :: StringLeq(c.actionKeys[i], c.actionKeys[j])
  }

  lemma TidyMeaning(b: BindingSpec)
    ensures TidyOf(b, Tidy(b))
  {
    StringOrder();
    SortSorted(StringLeq, Map(Trim, b.actionKeys));
    hide Trim, Map, Sort, StringLeq;
  }

  lemma CanonicalMeaning(bs: seq<BindingSpec>)
    ensures var cs := CanonicalBindings(bs);
            && Reordered(TidyOf, bs, cs)
            && forall i, j | 0 <= i < j < |cs| :: StringLeq(cs[i].workflowKey, cs[j].workflowKey)
  {
    var tidy := Map(Tidy, bs);
    KeysOrdered();
    SortSorted(KeyLeq, tidy);
    forall i | 0 <= i < |bs|
      ensures TidyOf(bs[i], tidy[i])
    {
      TidyMeaning(bs[i]);
    }
    hide TidyOf, Tidy, Map, Sort, Reordered, StringLeq;
    ReorderedThrough(TidyOf, bs, tidy, CanonicalBindings(bs), CanonicalBindings(bs));
  }
}
