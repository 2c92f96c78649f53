/** What a release digest vouches for, and what validation may do to the bindings it reads. */
module WorkloadLaws {
  import opened Wrappers
  import opened Text
  import opened Lists
  import opened Workload

  function WorkflowOf(b: BindingSpec): string {
    b.workflowKey
  }

  ghost predicate BindingComplete(b: BindingSpec) {
    var actions := Map(Trim, b.actionKeys);
    !Incomplete(TrimNames(b)) && NoDuplicates(actions) && "" !in actions
  }

  /** Every binding is complete once trimmed, and no workflow is bound twice. */
  ghost predicate StructurallyValid(bs: seq<BindingSpec>) {
    (forall b | b in bs :: BindingComplete(b)) && NoDuplicates(WorkflowsOf(bs))
  }

  lemma BindingCheckMeaning(b: BindingSpec, seen: set<string>)
    ensures BindingCheck(TrimNames(b), seen).Pass? <==> BindingComplete(b) && Trim(b.workflowKey) !in seen
  {
    hide Trim, Map, ActionsCheck;
    ActionsMeaning(b.actionKeys, {});
  }

  function WorkflowsOf(bs: seq<BindingSpec>): seq<string> {
    Map(WorkflowOf, Map(Tidy, bs))
  }

  lemma WorkflowsStep(bs: seq<BindingSpec>)
    requires bs != []
    ensures WorkflowsOf(bs) == [Trim(bs[0].workflowKey)] + WorkflowsOf(bs[1..])
    ensures NoDuplicates(WorkflowsOf(bs)) <==>
              NoDuplicates(WorkflowsOf(bs[1..])) && Trim(bs[0].workflowKey) !in WorkflowsOf(bs[1..])
  {
    hide Trim, Map, SortedActions, NoDuplicates;
    var tidy := Map(Tidy, bs);
    MapTail(Tidy, bs);
    MapTail(WorkflowOf, tidy);
    DistinctTail(WorkflowOf, tidy);
    MapMembers(WorkflowOf, tidy[1..]);
  }

  lemma StructurallyValidStep(bs: seq<BindingSpec>)
    requires bs != []
    ensures StructurallyValid(bs) <==>
              && BindingComplete(bs[0]) && StructurallyValid(bs[1..])
              && Trim(bs[0].workflowKey) !in WorkflowsOf(bs[1..])
  {
    hide Trim, WorkflowsOf, NoDuplicates, BindingComplete;
    WorkflowsStep(bs);
    assert bs == [bs[0]] + bs[1..];
  }

  lemma {:induction false} ProcessedMeaning(bs: seq<BindingSpec>, seen: set<string>)
    ensures Processed(bs, seen).0.Pass? <==> StructurallyValid(bs) && forall w | w in WorkflowsOf(bs) :: w !in seen
    ensures Processed(bs, seen).0.Pass? ==> Processed(bs, seen).1 == Map(Tidy, bs)
  {
    hide Trim, Map, BindingCheck, SortedActions, Incomplete;
    if bs == [] {
      assert |Map(Tidy, bs)| == 0 && |WorkflowsOf(bs)| == 0;
    } else {
      var workflow, workflows := Trim(bs[0].workflowKey), WorkflowsOf(bs[1..]);
      BindingCheckMeaning(bs[0], seen);
      ProcessedMeaning(bs[1..], seen + {workflow});
      StructurallyValidStep(bs);
      WorkflowsStep(bs);
      MapTail(Tidy, bs);
      hide StructurallyValid, WorkflowsOf, Tidy, BindingComplete;
      assert forall w :: w in [workflow] + workflows <==> w == workflow || w in workflows;
    }
  }

  /** Validation accepts exactly the complete requests with structurally valid bindings whose digest and release are
      these. */
  lemma Acceptance(hash: Hash, r: Release, bs: seq<BindingSpec>)
    ensures Validated(hash, r, bs).0.Pass? <==>
              ReleaseComplete(r) && StructurallyValid(bs) && Names(r, Digest(hash, bs))
    ensures Validated(hash, r, bs).0.Pass? ==> Validated(hash, r, bs).1 == CanonicalBindings(bs)
  {
    hide Processed, ReleaseComplete, Names, Sort, Map, Digest;
    ProcessedMeaning(bs, {});
    if StructurallyValid(bs) {
      DigestSettled(hash, bs);
    }
  }

  // ----- The digest sees through trimming and order -----

  lemma SortedActionsFixed(keys: seq<string>)
    ensures SortedActions(SortedActions(keys)) == SortedActions(keys)
  {
    hide Trim, Sort, StringLeq, Map;
    var trimmed := Map(Trim, keys);
    var sorted := Sort(StringLeq, trimmed);
    SameMembers(sorted, trimmed);
    assert forall k | k in sorted :: Trim(k) == k;
    assert Map(Trim, sorted) == sorted;
    StringOrder();
    SortPermuted(StringLeq, sorted, trimmed);
  }

  lemma TidyAbsorbs(b: BindingSpec)
    ensures Tidy(TrimNames(b)) == Tidy(b) && Tidy(Tidy(b)) == Tidy(b)
  {
    hide Trim, SortedActions;
    SortedActionsFixed(b.actionKeys);
  }

  lemma {:induction false} ProcessedTidy(bs: seq<BindingSpec>, seen: set<string>)
    ensures Map(Tidy, Processed(bs, seen).1) == Map(Tidy, bs)
  {
    hide Tidy, TrimNames, BindingCheck;
    if bs != [] {
      var b := TrimNames(bs[0]);
      TidyAbsorbs(bs[0]);
      ProcessedTidy(bs[1..], seen + {b.workflowKey});
      MapTail(Tidy, bs);
      var left := Processed(bs, seen).1;
      MapTail(Tidy, left);
      if BindingCheck(b, seen).Fail? {
        assert left[1..] == bs[1..];
      } else {
        assert left[1..] == Processed(bs[1..], seen + {b.workflowKey}).1;
      }
    }
  }

  lemma WorkflowDecides(bs: seq<BindingSpec>)
    requires NoDuplicates(Map(WorkflowOf, bs))
    ensures Separates(KeyLeq, bs)
  {
    hide StringLeq, Map;
    forall a, b | a in bs && b in bs && KeyLeq(a, b) && KeyLeq(b, a)
      ensures a == b
    {
      var i, j :| 0 <= i < |bs| && 0 <= j < |bs| && bs[i] == a && bs[j] == b;
      StringLeqTotal(a.workflowKey, b.workflowKey);
      var workflows := Map(WorkflowOf, bs);
      assert workflows[i] == workflows[j];
    }
  }

  lemma KeysOrdered()
    ensures Ordering(KeyLeq)
  {
    StringOrder();
    hide StringLeq;
  }

  /** The canonical bindings are their own canonical form. */
  lemma CanonicalFixed(bs: seq<BindingSpec>)
    requires NoDuplicates(WorkflowsOf(bs))
    ensures CanonicalBindings(CanonicalBindings(bs)) == CanonicalBindings(bs)
  {
    hide Tidy, Sort, Map;
    var tidy := Map(Tidy, bs);
    var sorted := Sort(KeyLeq, tidy);
    SameMembers(sorted, tidy);
    forall b | b in sorted
      ensures Tidy(b) == b
    {
      var i :| 0 <= i < |bs| && tidy[i] == b;
      TidyAbsorbs(bs[i]);
    }
    MapFixed(Tidy, sorted);
    KeysOrdered();
    WorkflowDecides(tidy);
    SortPermuted(KeyLeq, tidy, sorted);
  }

  lemma DigestSettled(hash: Hash, bs: seq<BindingSpec>)
    requires StructurallyValid(bs)
    ensures Digest(hash, CanonicalBindings(bs)) == Digest(hash, bs)
  {
    hide CanonicalBindings, Map;
    CanonicalFixed(bs);
  }

  /** Whatever validation decides, and however far it got, the digest of the bindings it leaves is the digest they
      had. */
  lemma DigestUnchanged(hash: Hash, r: Release, bs: seq<BindingSpec>)
    ensures Digest(hash, Validated(hash, r, bs).1) == Digest(hash, bs)
  {
    hide Processed, ReleaseComplete, Names, Sort, Map;
    ProcessedTidy(bs, {});
    ProcessedMeaning(bs, {});
    if Processed(bs, {}).0.Pass? {
      DigestSettled(hash, bs);
    }
  }

  // ----- Round trip -----

  /** A request built from the digest of structurally valid bindings is accepted. */
  lemma RoundTrip(hash: Hash, application: ApplicationScope, bs: seq<BindingSpec>)
    requires Hexadecimal(hash) && StructurallyValid(bs)
    requires ValidWorkspace(application.workspaceId) && ValidIdentifier(application.applicationKey)
    ensures var digest := Digest(hash, bs);
            Validated(hash, Release(application, ReleaseId(digest), digest), bs) == (Pass, CanonicalBindings(bs))
  {
    hide StructurallyValid, Validated, ValidWorkspace, ValidIdentifier, Trim, CanonicalBindings;
    var digest := Digest(hash, bs);
    HexTrimmed(digest);
    ReleaseIdTrimmed(digest);
    Acceptance(hash, Release(application, ReleaseId(digest), digest), bs);
  }

  lemma ReleaseIdTrimmed(digest: string)
    requires HexDigest(digest)
    ensures Trim(ReleaseId(digest)) == ReleaseId(digest) && !Blank(ReleaseId(digest))
  {
    HexTrimmed(digest);
    assert digest[63] in digest;
    var id := ReleaseId(digest);
    assert id[0] == 'w' && id[|id| - 1] == digest[63];
  }

  /** Validating an accepted request again accepts it and changes nothing. */
  lemma SecondValidation(hash: Hash, r: Release, bs: seq<BindingSpec>)
    requires Validated(hash, r, bs).0.Pass?
    ensures Validated(hash, r, Validated(hash, r, bs).1) == Validated(hash, r, bs)
  {
    hide Validated, ReleaseComplete, Names, Sort, Map, Tidy, WorkflowOf, Digest, BindingComplete;
    Acceptance(hash, r, bs);
    var canonical := CanonicalBindings(bs);
    DigestSettled(hash, bs);
    CanonicalFixed(bs);
    CanonicalValid(bs);
    Acceptance(hash, r, canonical);
  }

  lemma CompleteTidied(b: BindingSpec)
    requires BindingComplete(b)
    ensures BindingComplete(Tidy(b))
  {
    hide Trim, Sort, StringLeq, Map;
    var trimmed := Map(Trim, b.actionKeys);
    var sorted := Sort(StringLeq, trimmed);
    SameMembers(sorted, trimmed);
    NoDuplicatesPermuted(trimmed, sorted);
    assert forall k | k in sorted :: Trim(k) == k;
    assert Map(Trim, sorted) == sorted;
  }

  lemma CanonicalValid(bs: seq<BindingSpec>)
    requires StructurallyValid(bs)
    ensures StructurallyValid(CanonicalBindings(bs))
  {
    hide Tidy, Sort, Map, BindingComplete, WorkflowOf;
    var tidy, sorted := Map(Tidy, bs), CanonicalBindings(bs);
    SameMembers(sorted, tidy);
    forall b | b in sorted
      ensures BindingComplete(b) && Tidy(b) == b
    {
      var i :| 0 <= i < |bs| && tidy[i] == b;
      CompleteTidied(bs[i]);
      TidyAbsorbs(bs[i]);
    }
    MapFixed(Tidy, sorted);
    MapPermuted(WorkflowOf, tidy, sorted);
    NoDuplicatesPermuted(Map(WorkflowOf, tidy), Map(WorkflowOf, sorted));
  }

  /** Unless the two canonical texts collide under the hash, bindings pass with the digest of other bindings exactly
      when both have the same canonical form: nothing but white space and order can be changed under a release. */
  lemma DigestPinsBindings(hash: Hash, application: ApplicationScope, released: seq<BindingSpec>,
                           presented: seq<BindingSpec>)
    requires Hexadecimal(hash)
    requires Digest(hash, released) == Digest(hash, presented) ==>
               CanonicalBindings(released) == CanonicalBindings(presented)
    requires ValidWorkspace(application.workspaceId) && ValidIdentifier(application.applicationKey)
    requires StructurallyValid(presented)
    ensures var digest := Digest(hash, released);
            Validated(hash, Release(application, ReleaseId(digest), digest), presented).0.Pass?
            <==> CanonicalBindings(presented) == CanonicalBindings(released)
  {
    hide StructurallyValid, Validated, ValidWorkspace, ValidIdentifier, Trim, CanonicalBindings;
    var digest := Digest(hash, released);
    HexTrimmed(digest);
    ReleaseIdTrimmed(digest);
    Acceptance(hash, Release(application, ReleaseId(digest), digest), presented);
  }
}
