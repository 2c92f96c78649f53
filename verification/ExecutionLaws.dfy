/** What a derived execution bundle can reach: its target through the source's scope, everything else as before. */
module ExecutionLaws {
  import opened Wrappers
  import opened Text
  import opened Lists
  import opened Contract
  import opened Validation
  import opened Evaluator
  import opened Execution

  // ----- Appending under a key set -----

  /** The earlier policies stay in front, and nothing comes after them that was not appended. */
  lemma {:induction false} AppendEachExtends(done: seq<DataPolicy>, ps: seq<DataPolicy>)
    ensures var r := AppendEach(done, ps);
            && done <= r && |r| <= |done| + |ps|
            && forall i | |done| <= i < |r| :: r[i] in ps
    decreases |ps|
  {
    hide Keys;
    if ps != [] {
      AppendEachExtends(AppendNew(done, ps[0]), ps[1..]);
      assert ps[0] in ps && forall p | p in ps[1..] :: p in ps;
    }
  }

  lemma {:induction false} AppendEachDistinct(done: seq<DataPolicy>, ps: seq<DataPolicy>)
    requires DistinctKeys(done, DataKey)
    ensures DistinctKeys(AppendEach(done, ps), DataKey)
    decreases |ps|
  {
    hide Keys, DistinctKeys;
    if ps != [] {
      if ps[0].key !in Keys(done) {
        SnocDistinct(done, ps[0]);
      }
      AppendEachDistinct(AppendNew(done, ps[0]), ps[1..]);
    }
  }

  lemma SnocDistinct(done: seq<DataPolicy>, p: DataPolicy)
    requires DistinctKeys(done, DataKey) && p.key !in Keys(done)
    ensures DistinctKeys(done + [p], DataKey)
  {
    var ks := Map(DataKey, done + [p]);
    forall i, j | 0 <= i < j < |ks|
      ensures ks[i] != ks[j]
    {
      if j < |done| {
        assert Map(DataKey, done)[i] != Map(DataKey, done)[j];
      } else {
        assert done[i] in done;
      }
    }
  }

  /** Every policy is appended exactly when its key is new each time. */
  lemma {:induction false} AppendEachFresh(done: seq<DataPolicy>, ps: seq<DataPolicy>)
    requires DistinctKeys(ps, DataKey) && forall p | p in ps :: p.key !in Keys(done)
    ensures AppendEach(done, ps) == done + ps
    decreases |ps|
  {
    hide Keys, DistinctKeys;
    if ps == [] {
      assert done + [] == done;
    } else {
      assert ps[0] in ps && forall p | p in ps[1..] :: p in ps;
      DistinctKeysStep(ps, DataKey);
      KeysAppend(done, ps[0]);
      AppendEachFresh(done + [ps[0]], ps[1..]);
      assert done + [ps[0]] + ps[1..] == done + ps;
    }
  }

  lemma {:induction false} AppendEachDrops(done: seq<DataPolicy>, ps: seq<DataPolicy>)
    requires exists p | p in ps :: p.key in Keys(done)
    ensures |AppendEach(done, ps)| < |done| + |ps|
    decreases |ps|
  {
    hide Keys;
    var p :| p in ps && p.key in Keys(done);
    AppendEachExtends(AppendNew(done, ps[0]), ps[1..]);
    if ps[0].key !in Keys(done) {
      assert p in ps[1..];
      KeysAppend(done, ps[0]);
      AppendEachDrops(done + [ps[0]], ps[1..]);
    }
  }

  // ----- When the projection is exact -----

  predicate NoCollision(ps: seq<DataPolicy>, g: ExecutionGrant) {
    forall p, q | p in ps && q in ps && Kept(g)(p) && FromSource(g)(q) :: p.key != ProjectedKey(q, g)
  }

  /** The policies kept, then a copy of every source policy under the target's name. */
  function ExactProjection(ps: seq<DataPolicy>, g: ExecutionGrant): seq<DataPolicy> {
    Filter(Kept(g), ps) + Projections(ps, g)
  }

  lemma SameSuffix(a: string, b: string, suffix: string)
    requires a + suffix == b + suffix
    ensures a == b
  {
    assert |a| == |b|;
    assert (a + suffix)[..|a|] == a && (b + suffix)[..|b|] == b;
  }

  lemma ProjectedKeysDiffer(p: DataPolicy, q: DataPolicy, g: ExecutionGrant)
    requires p.key != q.key
    ensures ProjectedKey(p, g) != ProjectedKey(q, g)
  {
    var suffix := ".execution." + g.resource + "." + g.action;
    assert ProjectedKey(p, g) == p.key + suffix && ProjectedKey(q, g) == q.key + suffix;
    if ProjectedKey(p, g) == ProjectedKey(q, g) {
      SameSuffix(p.key, q.key, suffix);
    }
  }

  lemma {:induction false} MapProjectedDistinct(source: seq<DataPolicy>, g: ExecutionGrant)
    requires DistinctKeys(source, DataKey)
    ensures DistinctKeys(Map(Projected(g), source), DataKey)
  {
    hide DistinctKeys, ProjectedKey;
    var ps := Map(Projected(g), source);
    if source == [] {
      NoKeys(ps, DataKey);
    } else {
      assert ps[0] == Projected(g)(source[0]) && ps[1..] == Map(Projected(g), source[1..]);
      DistinctKeysStep(source, DataKey);
      MapProjectedDistinct(source[1..], g);
      forall p | p in ps[1..]
        ensures DataKey(p) != DataKey(ps[0])
      {
        var i :| 0 <= i < |ps[1..]| && ps[1..][i] == p;
        assert source[1..][i] in source[1..];
        ProjectedKeysDiffer(source[1..][i], source[0], g);
      }
      DistinctKeysStep(ps, DataKey);
    }
  }

  lemma ProjectionsDistinct(ps: seq<DataPolicy>, g: ExecutionGrant)
    requires DistinctKeys(ps, DataKey)
    ensures DistinctKeys(Projections(ps, g), DataKey)
  {
    hide DistinctKeys, Filter, Map, FromSource, Projected;
    FilterKeys(FromSource(g), DataKey, ps);
    MapProjectedDistinct(Filter(FromSource(g), ps), g);
  }

  lemma ProjectionMembers(ps: seq<DataPolicy>, g: ExecutionGrant)
    ensures forall q | q in ps && FromSource(g)(q) :: Projected(g)(q) in Projections(ps, g)
    ensures forall p | p in Projections(ps, g) :: exists q | q in ps && FromSource(g)(q) :: p == Projected(g)(q)
  {
    var source := Filter(FromSource(g), ps);
    forall q | q in ps && FromSource(g)(q)
      ensures Projected(g)(q) in Projections(ps, g)
    {
      assert q in source;
      var i :| 0 <= i < |source| && source[i] == q;
      assert Projections(ps, g)[i] == Projected(g)(q);
    }
    forall p | p in Projections(ps, g)
      ensures exists q | q in ps && FromSource(g)(q) :: p == Projected(g)(q)
    {
      var i :| 0 <= i < |source| && Projections(ps, g)[i] == p;
      assert source[i] in source && p == Projected(g)(source[i]);
    }
  }

  /** Every source policy reaches the target exactly when no remaining key collides with a projected one; on a
      collision a source policy, allow or deny, is silently missing. */
  lemma ProjectionExact(ps: seq<DataPolicy>, g: ExecutionGrant)
    requires DistinctKeys(ps, DataKey)
    ensures DerivedPolicies(ps, g) == ExactProjection(ps, g) <==> NoCollision(ps, g)
  {
    hide DistinctKeys, Projections, Kept, FromSource, AppendEach;
    var kept := Filter(Kept(g), ps);
    FilterKeys(Kept(g), DataKey, ps);
    AppendEachFresh([], kept);
    assert [] + kept == kept;
    ProjectionsDistinct(ps, g);
    ProjectionMembers(ps, g);
    if NoCollision(ps, g) {
      AppendEachFresh(kept, Projections(ps, g));
    } else {
      var p, q :| p in ps && q in ps && Kept(g)(p) && FromSource(g)(q) && p.key == ProjectedKey(q, g);
      assert p in kept && Projected(g)(q) in Projections(ps, g);
      assert Projected(g)(q).key in Keys(kept);
      AppendEachDrops(kept, Projections(ps, g));
    }
  }

  /** The target keeps no other policy under the key a source policy is projected to. */
  predicate Arrives(q: DataPolicy, ps: seq<DataPolicy>, g: ExecutionGrant) {
    forall p | p in ps && Kept(g)(p) && p.key == ProjectedKey(q, g) :: p == Projected(g)(q)
  }

  /** With distinct keys on both sides, appending keeps what is there and adds what has a new key. */
  lemma {:induction false} AppendEachMembers(done: seq<DataPolicy>, ps: seq<DataPolicy>, p: DataPolicy)
    requires DistinctKeys(ps, DataKey)
    ensures p in AppendEach(done, ps) <==> p in done || (p in ps && p.key !in Keys(done))
    decreases |ps|
  {
    hide Keys, DistinctKeys;
    if ps != [] {
      DistinctKeysStep(ps, DataKey);
      KeysAppend(done, ps[0]);
      AppendEachMembers(AppendNew(done, ps[0]), ps[1..], p);
      assert p in ps <==> p == ps[0] || p in ps[1..];
    }
  }

  lemma KeptFirst(ps: seq<DataPolicy>, g: ExecutionGrant)
    requires DistinctKeys(ps, DataKey)
    ensures DistinctKeys(Filter(Kept(g), ps), DataKey) && AppendEach([], Filter(Kept(g), ps)) == Filter(Kept(g), ps)
  {
    hide DistinctKeys, Kept, AppendEach;
    var kept := Filter(Kept(g), ps);
    FilterKeys(Kept(g), DataKey, ps);
    NoKeyYet();
    AppendEachFresh([], kept);
    assert [] + kept == kept;
  }

  lemma DerivedMember(ps: seq<DataPolicy>, g: ExecutionGrant, p: DataPolicy)
    requires DistinctKeys(ps, DataKey)
    ensures p in DerivedPolicies(ps, g) <==>
              (p in ps && Kept(g)(p)) || (p in Projections(ps, g) && p.key !in Keys(Filter(Kept(g), ps)))
  {
    hide DistinctKeys, Projections, Kept, AppendEach, Keys;
    KeptFirst(ps, g);
    ProjectionsDistinct(ps, g);
    AppendEachMembers(Filter(Kept(g), ps), Projections(ps, g), p);
  }

  /** A source policy reaches the target exactly when no other policy kept there has taken its key. */
  lemma ProjectionArrives(ps: seq<DataPolicy>, g: ExecutionGrant, q: DataPolicy)
    requires DistinctKeys(ps, DataKey) && q in ps && FromSource(g)(q)
    ensures Projected(g)(q) in DerivedPolicies(ps, g) <==> Arrives(q, ps, g)
  {
    hide DistinctKeys, Projections, Kept, FromSource, DerivedPolicies, ProjectedKey;
    var p, kept := Projected(g)(q), Filter(Kept(g), ps);
    ProjectionMembers(ps, g);
    DerivedMember(ps, g, p);
    if p.key in Keys(kept) {
      var k :| k in kept && k.key == p.key;
      if p in ps && Kept(g)(p) {
        forall x | x in ps && Kept(g)(x) && x.key == p.key
          ensures x == p
        {
          KeyDetermines(ps, DataKey, x, p);
        }
      }
    } else {
      assert forall x | x in ps && Kept(g)(x) :: x in kept && x.key in Keys(kept);
    }
  }

  /** The derived policies are those kept and the projections of those that arrive. */
  lemma DerivedMembers(ps: seq<DataPolicy>, g: ExecutionGrant)
    requires DistinctKeys(ps, DataKey)
    ensures forall p | p in ps && Kept(g)(p) :: p in DerivedPolicies(ps, g)
    ensures forall q | q in ps && FromSource(g)(q) :: Projected(g)(q) in DerivedPolicies(ps, g) <==> Arrives(q, ps, g)
    ensures forall p | p in DerivedPolicies(ps, g) ::
              || (p in ps && Kept(g)(p))
              || exists q | q in ps && FromSource(g)(q) && Arrives(q, ps, g) :: p == Projected(g)(q)
  {
    hide DistinctKeys, Projections, Kept, FromSource, DerivedPolicies, ProjectedKey, Keys, Projected, Arrives;
    ProjectionMembers(ps, g);
    forall q | q in ps && FromSource(g)(q)
      ensures Projected(g)(q) in DerivedPolicies(ps, g) <==> Arrives(q, ps, g)
    {
      ProjectionArrives(ps, g, q);
    }
    forall p
      ensures p in DerivedPolicies(ps, g) <==>
                (p in ps && Kept(g)(p)) || (p in Projections(ps, g) && p.key !in Keys(Filter(Kept(g), ps)))
    {
      DerivedMember(ps, g, p);
    }
  }

  /** No source policy is lost: a policy in the way is the projection itself, as a projected deny is in a bundle already
      derived once. */
  predicate NothingLost(ps: seq<DataPolicy>, g: ExecutionGrant) {
    forall q | q in ps && FromSource(g)(q) :: Arrives(q, ps, g)
  }

  function Survives(ps: seq<DataPolicy>, g: ExecutionGrant): DataPolicy -> bool {
    q => !FromSource(g)(q) || Arrives(q, ps, g)
  }

  /** The policies without the source policies that get lost. */
  function Surviving(ps: seq<DataPolicy>, g: ExecutionGrant): seq<DataPolicy> {
    Filter(Survives(ps, g), ps)
  }

  lemma {:induction false} FilterAll<T(!new)>(keep: T -> bool, s: seq<T>)
    requires forall x | x in s :: keep(x)
    ensures Filter(keep, s) == s
  {
    if s != [] {
      assert s[0] in s && forall x | x in s[1..] :: x in s;
      FilterAll(keep, s[1..]);
    }
  }

  // ----- What the target lets through -----

  predicate TargetDeniesSilent(ps: seq<DataPolicy>, g: ExecutionGrant, facts: ResourceFacts,
                               context: EvaluationContext) {
    forall p | p in ps && Names(p, g.resource, g.action) && p.effect == Deny :: No(PolicyMatch(p, facts, context))
  }

  lemma ProjectedReads(q: DataPolicy, g: ExecutionGrant, facts: ResourceFacts, context: EvaluationContext)
    requires FromSource(g)(q)
    ensures var p := Projected(g)(q);
            && PolicyQuiet(p, g.resource, g.action, facts, context)
                == PolicyQuiet(q, g.sourceResource, g.sourceAction, facts, context)
            && PolicyGrants(p, g.resource, g.action, facts, context)
                == PolicyGrants(q, g.sourceResource, g.sourceAction, facts, context)
  {
    hide EvalPredicate;
  }

  lemma KeptReads(p: DataPolicy, g: ExecutionGrant, facts: ResourceFacts, context: EvaluationContext)
    requires DataPolicyValid(p) && Kept(g)(p)
    ensures !PolicyGrants(p, g.resource, g.action, facts, context)
    ensures PolicyQuiet(p, g.resource, g.action, facts, context) <==>
              (Names(p, g.resource, g.action) && p.effect == Deny ==> No(PolicyMatch(p, facts, context)))
  {
    hide PredicateCheck, EvalPredicate, Blank, ValidIdentifier;
  }

  lemma MembersOfSource(ps: seq<DataPolicy>, g: ExecutionGrant, facts: ResourceFacts, context: EvaluationContext)
    requires forall p | p in ps :: DataPolicyValid(p)
    ensures forall p | p in ps && !FromSource(g)(p) ::
              PolicyQuiet(p, g.sourceResource, g.sourceAction, facts, context)
                  && !PolicyGrants(p, g.sourceResource, g.sourceAction, facts, context)
  {
    hide DataPolicyValid, PolicyQuiet, PolicyGrants;
    forall p | p in ps && !FromSource(g)(p)
      ensures PolicyQuiet(p, g.sourceResource, g.sourceAction, facts, context)
                && !PolicyGrants(p, g.sourceResource, g.sourceAction, facts, context)
    {
      UnrelatedReads(p, g.sourceResource, g.sourceAction, facts, context);
    }
  }

  /** The target shows exactly the records that the surviving policies of the source show, less those a deny on the
      target itself matches: the target's own broader allows contribute nothing. */
  lemma DerivedScope(ps: seq<DataPolicy>, g: ExecutionGrant, facts: ResourceFacts, context: EvaluationContext)
    requires DistinctKeys(ps, DataKey) && (forall p | p in ps :: DataPolicyValid(p))
    ensures PoliciesPass(DerivedPolicies(ps, g), g.resource, g.action, facts, context) <==>
              && PoliciesPass(Surviving(ps, g), g.sourceResource, g.sourceAction, facts, context)
              && TargetDeniesSilent(ps, g, facts, context)
  {
    hide DistinctKeys, DataPolicyValid, PolicyQuiet, PolicyGrants, Kept, FromSource, Projected, PolicyMatch, Names,
      DerivedPolicies, Arrives;
    DerivedMembers(ps, g);
    MembersOfSource(ps, g, facts, context);
    TargetQuiet(ps, g, facts, context);
    forall q | q in ps && FromSource(g)(q)
      ensures var p := Projected(g)(q);
              && PolicyQuiet(p, g.resource, g.action, facts, context)
                  == PolicyQuiet(q, g.sourceResource, g.sourceAction, facts, context)
              && PolicyGrants(p, g.resource, g.action, facts, context)
                  == PolicyGrants(q, g.sourceResource, g.sourceAction, facts, context)
    {
      ProjectedReads(q, g, facts, context);
    }
  }

  lemma TargetQuiet(ps: seq<DataPolicy>, g: ExecutionGrant, facts: ResourceFacts, context: EvaluationContext)
    requires forall p | p in ps :: DataPolicyValid(p)
    ensures forall p | p in ps && Kept(g)(p) :: !PolicyGrants(p, g.resource, g.action, facts, context)
    ensures (forall p | p in ps && Kept(g)(p) :: PolicyQuiet(p, g.resource, g.action, facts, context)) <==>
              TargetDeniesSilent(ps, g, facts, context)
  {
    hide DataPolicyValid, PolicyQuiet, PolicyGrants, PolicyMatch;
    forall p | p in ps && Kept(g)(p)
      ensures !PolicyGrants(p, g.resource, g.action, facts, context)
      ensures PolicyQuiet(p, g.resource, g.action, facts, context) <==>
                (Names(p, g.resource, g.action) && p.effect == Deny ==> No(PolicyMatch(p, facts, context)))
    {
      KeptReads(p, g, facts, context);
    }
    assert forall p | p in ps && Names(p, g.resource, g.action) && p.effect == Deny :: Kept(g)(p);
  }

  /** When nothing is lost the target shows exactly what the source shows, less what its own denies match. */
  lemma ProjectedScope(ps: seq<DataPolicy>, g: ExecutionGrant, facts: ResourceFacts, context: EvaluationContext)
    requires DistinctKeys(ps, DataKey) && (forall p | p in ps :: DataPolicyValid(p)) && NothingLost(ps, g)
    ensures PoliciesPass(DerivedPolicies(ps, g), g.resource, g.action, facts, context) <==>
              && PoliciesPass(ps, g.sourceResource, g.sourceAction, facts, context)
              && TargetDeniesSilent(ps, g, facts, context)
  {
    hide DistinctKeys, DataPolicyValid, PoliciesPass, TargetDeniesSilent, DerivedPolicies, Arrives, FromSource;
    DerivedScope(ps, g, facts, context);
    FilterAll(Survives(ps, g), ps);
  }

  /** A deny of the source that is lost and matches a record hides it from the source and not from the target. */
  lemma CollisionLosesDeny(ps: seq<DataPolicy>, d: DataPolicy, g: ExecutionGrant, facts: ResourceFacts,
                           context: EvaluationContext)
    requires DistinctKeys(ps, DataKey) && (forall p | p in ps :: DataPolicyValid(p))
    requires d in ps && FromSource(g)(d) && d.effect == Deny && Yes(PolicyMatch(d, facts, context))
    requires !Arrives(d, ps, g)
    requires PoliciesPass(Surviving(ps, g), g.sourceResource, g.sourceAction, facts, context)
    requires TargetDeniesSilent(ps, g, facts, context)
    ensures !PoliciesPass(ps, g.sourceResource, g.sourceAction, facts, context)
    ensures PoliciesPass(DerivedPolicies(ps, g), g.resource, g.action, facts, context)
  {
    hide DistinctKeys, DataPolicyValid, TargetDeniesSilent, DerivedPolicies, Arrives, PolicyMatch, Surviving;
    DerivedScope(ps, g, facts, context);
    assert !PolicyQuiet(d, g.sourceResource, g.sourceAction, facts, context);
  }

  /** Deriving the same grant again changes nothing the target shows. */
  lemma DerivedAgain(ps: seq<DataPolicy>, g: ExecutionGrant, facts: ResourceFacts, context: EvaluationContext)
    requires DistinctKeys(ps, DataKey) && (forall p | p in ps :: DataPolicyValid(p)) && Projecting(g)
    requires ValidIdentifier(g.resource) && ValidIdentifier(g.action) && g.resource != "*"
    ensures PoliciesPass(DerivedPolicies(DerivedPolicies(ps, g), g), g.resource, g.action, facts, context) <==>
              PoliciesPass(DerivedPolicies(ps, g), g.resource, g.action, facts, context)
  {
    hide DistinctKeys, DataPolicyValid, PolicyQuiet, PolicyGrants, Kept, FromSource, Projected, PolicyMatch,
      DerivedPolicies, Arrives, ValidIdentifier, Names;
    var again := DerivedPolicies(ps, g);
    DerivedPoliciesValid(ps, g);
    DerivedMembers(ps, g);
    DerivedScope(ps, g, facts, context);
    DerivedScope(again, g, facts, context);
    MembersOfSource(ps, g, facts, context);
    MembersOfSource(again, g, facts, context);
    SourceKept(ps, g);
    ArrivesAgain(ps, g);
    ProjectedDenies(ps, g, facts, context);
  }

  /** The source's own policies are kept, and no projection is one of them. */
  lemma SourceKept(ps: seq<DataPolicy>, g: ExecutionGrant)
    requires DistinctKeys(ps, DataKey) && Projecting(g)
    ensures forall q | FromSource(g)(q) :: q in DerivedPolicies(ps, g) <==> q in ps
  {
    hide DistinctKeys, DerivedPolicies, Arrives, ProjectedKey;
    DerivedMembers(ps, g);
  }

  /** What arrives once arrives again, and nothing else. */
  lemma ArrivesAgain(ps: seq<DataPolicy>, g: ExecutionGrant)
    requires DistinctKeys(ps, DataKey)
    ensures forall q | q in ps && FromSource(g)(q) :: Arrives(q, DerivedPolicies(ps, g), g) <==> Arrives(q, ps, g)
  {
    hide DistinctKeys, DerivedPolicies, FromSource, ProjectedKey;
    DerivedMembers(ps, g);
    forall q | q in ps && FromSource(g)(q)
      ensures Arrives(q, DerivedPolicies(ps, g), g) <==> Arrives(q, ps, g)
    {
      forall p | p in DerivedPolicies(ps, g) && !(p in ps && Kept(g)(p)) && p.key == ProjectedKey(q, g)
        ensures p == Projected(g)(q)
      {
        var r :| r in ps && FromSource(g)(r) && p == Projected(g)(r);
        if r.key != q.key {
          ProjectedKeysDiffer(r, q, g);
        } else {
          KeyDetermines(ps, DataKey, r, q);
        }
      }
      assert forall p | p in ps && Kept(g)(p) :: p in DerivedPolicies(ps, g);
    }
  }

  /** Denies projected to the target add nothing to those of the source they come from. */
  lemma ProjectedDenies(ps: seq<DataPolicy>, g: ExecutionGrant, facts: ResourceFacts, context: EvaluationContext)
    requires DistinctKeys(ps, DataKey)
    ensures TargetDeniesSilent(DerivedPolicies(ps, g), g, facts, context) ==> TargetDeniesSilent(ps, g, facts, context)
    ensures TargetDeniesSilent(ps, g, facts, context)
            && PoliciesPass(Surviving(ps, g), g.sourceResource, g.sourceAction, facts, context) ==>
              TargetDeniesSilent(DerivedPolicies(ps, g), g, facts, context)
  {
    hide DistinctKeys, DerivedPolicies, Arrives, PolicyMatch, ProjectedKey;
    DerivedMembers(ps, g);
    if TargetDeniesSilent(ps, g, facts, context)
       && PoliciesPass(Surviving(ps, g), g.sourceResource, g.sourceAction, facts, context) {
      forall p | p in DerivedPolicies(ps, g) && Names(p, g.resource, g.action) && p.effect == Deny
        ensures No(PolicyMatch(p, facts, context))
      {
        if !(p in ps && Kept(g)(p)) {
          var q :| q in ps && FromSource(g)(q) && Arrives(q, ps, g) && p == Projected(g)(q);
          assert q in Surviving(ps, g) && PolicyQuiet(q, g.sourceResource, g.sourceAction, facts, context);
          SameMatch(q, g, facts, context);
        }
      }
    }
  }

  lemma SameMatch(q: DataPolicy, g: ExecutionGrant, facts: ResourceFacts, context: EvaluationContext)
    ensures PolicyMatch(Projected(g)(q), facts, context) == PolicyMatch(q, facts, context)
  {
    hide EvalPredicate;
  }

  /** The execution theorem for whole requests on the target: it shows what the surviving source policies show, which is
      what the source shows when nothing is lost. */
  lemma ExecutionScope(b: AccessBundle, g: ExecutionGrant, now: int, facts: ResourceFacts, context: EvaluationContext)
    requires Derived(b, g, now).Ok? && Projecting(g)
    ensures var d := Derived(b, g, now).value;
            RecordAllowed(d, g.resource, g.action, facts, context) <==>
              && GuardrailsSilent(b.guardrails, g.resource, g.action, facts, context)
              && PoliciesPass(Surviving(b.dataPolicies, g), g.sourceResource, g.sourceAction, facts, context)
              && TargetDeniesSilent(b.dataPolicies, g, facts, context)
    ensures NothingLost(b.dataPolicies, g) ==> Surviving(b.dataPolicies, g) == b.dataPolicies
  {
    hide PoliciesPass, GuardrailsSilent, BundleCheck, DerivedPolicies, GrantWrites, WellFormed, Arrives, FromSource;
    WellFormedPolicies(b, now);
    DerivedScope(b.dataPolicies, g, facts, context);
    DraftGate(b, g);
    if NothingLost(b.dataPolicies, g) {
      FilterAll(Survives(b.dataPolicies, g), b.dataPolicies);
    }
  }

  /** Deriving the same grant a second time leaves the records the target shows as they are. */
  lemma RederivationKeepsScope(b: AccessBundle, g: ExecutionGrant, now: int, facts: ResourceFacts,
                               context: EvaluationContext)
    requires Derived(b, g, now).Ok? && Projecting(g) && Derived(Derived(b, g, now).value, g, now).Ok?
    ensures var once := Derived(b, g, now).value;
            var twice := Derived(once, g, now).value;
            RecordAllowed(twice, g.resource, g.action, facts, context) <==>
              RecordAllowed(once, g.resource, g.action, facts, context)
  {
    hide PoliciesPass, GuardrailsSilent, BundleCheck, DerivedPolicies, GrantWrites, WellFormed, FunctionGate,
      AllowGate, ValidIdentifier;
    var once := Derived(b, g, now).value;
    WellFormedPolicies(b, now);
    DerivedTargetValid(b, g, now);
    DerivedAgain(b.dataPolicies, g, facts, context);
    DraftGate(b, g);
    DraftGate(once, g);
  }

  lemma DraftGate(b: AccessBundle, g: ExecutionGrant)
    requires GrantAdmitted(b, g).Pass?
    ensures FunctionGate(Draft(b, g).functionGrants, g.resource, g.action).GateOpen?
  {
    hide ValidIdentifier, DerivedPolicies, GrantWrites;
    var d := Draft(b, g).functionGrants;
    if !AllowGate(b.functionGrants, g.resource, g.action).GateOpen? {
      assert d[|b.functionGrants|] == FunctionGrant(g.resource, g.action, Allow);
      assert FunctionGrant(g.resource, g.action, Allow) in d;
    }
  }

  // ----- Everything but the target -----

  lemma {:induction false} ScanIgnoresTail(ps: seq<DataPolicy>, tail: seq<DataPolicy>, resource: string, action: string,
                                          facts: ResourceFacts, context: EvaluationContext, m: bool, h: bool, a: bool)
    requires forall p | p in tail :: !PolicyApplies(p, resource, action)
    ensures ScanPolicies(ps + tail, resource, action, facts, context, m, h, a)
              == ScanPolicies(ps, resource, action, facts, context, m, h, a)
    decreases |ps| + |tail|
  {
    hide PolicyApplies, PolicyMatch;
    var all := ps + tail;
    if ps == [] {
      if tail != [] {
        assert all == tail && tail[0] in tail && forall p | p in tail[1..] :: p in tail;
        ScanIgnoresTail([], tail[1..], resource, action, facts, context, m, h, a);
        assert [] + tail[1..] == tail[1..];
      }
    } else {
      assert all[0] == ps[0] && all[1..] == ps[1..] + tail;
      if !PolicyApplies(ps[0], resource, action) {
        ScanIgnoresTail(ps[1..], tail, resource, action, facts, context, m, h, a);
      } else if PolicyMatch(ps[0], facts, context).Ok? {
        var matched := PolicyMatch(ps[0], facts, context).value;
        ScanIgnoresTail(ps[1..], tail, resource, action, facts, context,
                        m || (matched && ps[0].effect == Allow), true, a || ps[0].auditDenial);
      }
    }
  }

  /** What projecting appends has nothing to say about any other request. */
  lemma AppendedSilent(ps: seq<DataPolicy>, g: ExecutionGrant, resource: string, action: string, facts: ResourceFacts,
                       context: EvaluationContext)
    requires DistinctKeys(ps, DataKey) && !(resource == g.resource && action == g.action) && g.resource != "*"
    ensures ScanPolicies(DerivedPolicies(ps, g), resource, action, facts, context, false, false, false)
         == ScanPolicies(Filter(Kept(g), ps), resource, action, facts, context, false, false, false)
  {
    hide DistinctKeys, AppendEach, Projections, ScanPolicies, PolicyMatch, Filter;
    var kept, derived := Filter(Kept(g), ps), DerivedPolicies(ps, g);
    FilterKeys(Kept(g), DataKey, ps);
    AppendEachFresh([], kept);
    assert [] + kept == kept;
    AppendEachExtends(kept, Projections(ps, g));
    var tail := derived[|kept|..];
    assert derived == kept + tail;
    ProjectionMembers(ps, g);
    forall p | p in tail
      ensures !PolicyApplies(p, resource, action)
    {
      var i :| 0 <= i < |tail| && tail[i] == p;
      assert derived[|kept| + i] == p && p in Projections(ps, g);
    }
    ScanIgnoresTail(kept, tail, resource, action, facts, context, false, false, false);
  }

  lemma DerivedScan(ps: seq<DataPolicy>, g: ExecutionGrant, resource: string, action: string, facts: ResourceFacts,
                    context: EvaluationContext)
    requires DistinctKeys(ps, DataKey) && (forall p | p in ps :: DataPolicyValid(p)) && g.resource != "*"
    requires !(resource == g.resource && action == g.action)
    ensures ScanPolicies(DerivedPolicies(ps, g), resource, action, facts, context, false, false, false)
         == ScanPolicies(ps, resource, action, facts, context, false, false, false)
  {
    hide DistinctKeys, DataPolicyValid, DerivedPolicies, ScanPolicies, PolicyMatch;
    AppendedSilent(ps, g, resource, action, facts, context);
    forall p | p in ps && !Kept(g)(p)
      ensures !PolicyApplies(p, resource, action)
    {
      UnrelatedReads(p, resource, action, facts, context);
    }
    ScanSkips(Kept(g), ps, resource, action, facts, context, false, false, false);
  }

  lemma DerivedGate(b: AccessBundle, g: ExecutionGrant, resource: string, action: string)
    requires !(resource == g.resource && action == g.action)
    ensures FunctionGate(Draft(b, g).functionGrants, resource, action)
              == FunctionGate(b.functionGrants, resource, action)
  {
    hide DerivedPolicies, GrantWrites, AllowGate;
    var extra := FunctionGrant(g.resource, g.action, Allow);
    assert forall x | x in b.functionGrants :: x in b.functionGrants + [extra];
    assert forall x | x in b.functionGrants + [extra] :: x in b.functionGrants || x == extra;
  }

  /** A record request on anything but the target gets the very same decision from the derived bundle. */
  lemma OtherRequestsUntouched(b: AccessBundle, g: ExecutionGrant, now: int, request: AccessRequest,
                               facts: ResourceFacts, context: EvaluationContext)
    requires Derived(b, g, now).Ok? && Blank(request.fieldKey)
    requires !(Trim(request.objectKey) == g.resource && Trim(request.action) == g.action)
    ensures Verdict(Derived(b, g, now).value, request, facts, context, now) == Verdict(b, request, facts, context, now)
  {
    hide BundleCheck, DerivedPolicies, GrantWrites, FunctionGate, ScanPolicies, ScanRecordGuardrails, ValidIdentifier,
      Trim, AllowGate, DataPolicyValid,
      GrantValid, WellFormed, DistinctKeys;
    var resource, action := Trim(request.objectKey), Trim(request.action);
    WellFormedPolicies(b, now);
    DerivedTargetValid(b, g, now);
    DerivedGate(b, g, resource, action);
    if Projecting(g) {
      DerivedScan(b.dataPolicies, g, resource, action, facts, context);
    }
  }

  /** A derived bundle was validated, so its target is no wildcard. */
  lemma DerivedTargetValid(b: AccessBundle, g: ExecutionGrant, now: int)
    requires Derived(b, g, now).Ok?
    ensures g.resource != "*" && g.action != "*"
  {
    hide BundleCheck, DerivedPolicies, GrantWrites, WellFormed;
    WellFormedPolicies(b, now);
    WellFormedPolicies(Draft(b, g), now);
    TargetGranted(b, g);
  }

  lemma TargetGranted(b: AccessBundle, g: ExecutionGrant)
    requires GrantAdmitted(b, g).Pass?
    ensures exists x | x in Draft(b, g).functionGrants :: GrantNames(x, g.resource, g.action)
  {
    hide DerivedPolicies, GrantWrites, ValidIdentifier;
    var d := Draft(b, g).functionGrants;
    if AllowGate(b.functionGrants, g.resource, g.action).GateOpen? {
      var x :| x in b.functionGrants && GrantNames(x, g.resource, g.action) && x.effect == Allow;
      assert x in d;
    } else {
      var x := FunctionGrant(g.resource, g.action, Allow);
      assert d[|b.functionGrants|] == x;
      assert x in d && GrantNames(x, g.resource, g.action);
    }
  }

  // ----- The final validation -----

  lemma DerivedPoliciesValid(ps: seq<DataPolicy>, g: ExecutionGrant)
    requires DistinctKeys(ps, DataKey) && (forall p | p in ps :: DataPolicyValid(p))
    requires ValidIdentifier(g.resource) && ValidIdentifier(g.action) && g.resource != "*"
    ensures DistinctKeys(DerivedPolicies(ps, g), DataKey) && forall p | p in DerivedPolicies(ps, g) ::
              DataPolicyValid(p)
  {
    hide DistinctKeys, DataPolicyValid, AppendEach, Projections, ValidIdentifier;
    var kept, derived := Filter(Kept(g), ps), DerivedPolicies(ps, g);
    FilterKeys(Kept(g), DataKey, ps);
    AppendEachFresh([], kept);
    assert [] + kept == kept;
    AppendEachDistinct(kept, Projections(ps, g));
    AppendEachExtends(kept, Projections(ps, g));
    ProjectionMembers(ps, g);
    forall p | p in derived
      ensures DataPolicyValid(p)
    {
      var i :| 0 <= i < |derived| && derived[i] == p;
      if i < |kept| {
        assert derived[i] == kept[i] && kept[i] in kept;
      } else {
        var q :| q in ps && FromSource(g)(q) && p == Projected(g)(q);
        ProjectedValid(q, g);
      }
    }
  }

  lemma ProjectedValid(q: DataPolicy, g: ExecutionGrant)
    requires DataPolicyValid(q) && ValidIdentifier(g.resource) && ValidIdentifier(g.action) && g.resource != "*"
    ensures DataPolicyValid(Projected(g)(q))
  {
    assert !Blank(ProjectedKey(q, g)) by { ProjectedKeyNotBlank(q, g); }
    hide Blank, ValidIdentifier, PredicateCheck, IsZero, ProjectedKey;
  }

  lemma ProjectedKeyNotBlank(q: DataPolicy, g: ExecutionGrant)
    ensures !Blank(ProjectedKey(q, g))
  {
    var key := ProjectedKey(q, g);
    KeyWithDot(q.key, ".execution." + g.resource + "." + g.action);
    assert key == q.key + (".execution." + g.resource + "." + g.action);
  }

  lemma {:induction false} KeyWithDot(key: string, suffix: string)
    requires suffix != "" && suffix[0] == '.'
    ensures !Blank(key + suffix)
    decreases |key| + |suffix|
  {
    var s := key + suffix;
    if key != "" && IsSpace(s[0]) {
      assert s[1..] == key[1..] + suffix;
      KeyWithDot(key[1..], suffix);
    } else if key == "" && |suffix| > 1 && IsSpace(s[|s| - 1]) {
      assert s[..|s| - 1] == key + suffix[..|suffix| - 1];
      KeyWithDot(key, suffix[..|suffix| - 1]);
    } else if key != "" && IsSpace(s[|s| - 1]) && |suffix| > 1 {
      assert s[..|s| - 1] == key + suffix[..|suffix| - 1];
      KeyWithDot(key, suffix[..|suffix| - 1]);
    }
  }

  /** The key is an old one, or the new entry's, which no old entry had. */
  predicate KeyFrom(p: FieldPolicy, ps: seq<FieldPolicy>, resource: string, field: string) {
    || (exists q | q in ps :: FieldKey(q) == FieldKey(p))
    || (FieldKey(p) == (resource, field) && forall q | q in ps :: !FieldEntry(q, resource, field))
  }

  lemma {:induction false} GrantWriteValid(ps: seq<FieldPolicy>, resource: string, field: string)
    requires (forall p | p in ps :: FieldPolicyValid(p)) && DistinctKeys(ps, FieldKey)
    requires ValidIdentifier(resource) && field != "" && Trimmed(field)
    ensures var r := GrantWrite(ps, resource, field);
            && (forall p | p in r :: FieldPolicyValid(p)) && DistinctKeys(r, FieldKey)
            && (forall p | p in r :: KeyFrom(p, ps, resource, field))
  {
    hide DistinctKeys, FieldPolicyValid, ValidIdentifier;
    var r := GrantWrite(ps, resource, field);
    if ps == [] {
      NewFieldValid(resource, field);
      DistinctKeysStep(r, FieldKey);
      NoKeys(r[1..], FieldKey);
    } else {
      DistinctKeysStep(ps, FieldKey);
      DistinctKeysStep(r, FieldKey);
      assert ps[0] in ps && forall p | p in ps[1..] :: p in ps;
      assert forall p | p in ps :: p == ps[0] || p in ps[1..];
      if FieldEntry(ps[0], resource, field) {
        WriteKeepsValid(ps[0]);
        assert r[0] == ps[0].(write := true) && r[1..] == ps[1..];
      } else {
        GrantWriteValid(ps[1..], resource, field);
        var t := GrantWrite(ps[1..], resource, field);
        assert r[0] == ps[0] && r[1..] == t && forall p | p in r :: p == ps[0] || p in t;
        forall p | p in t
          ensures FieldKey(p) != FieldKey(ps[0]) && KeyFrom(p, ps, resource, field)
        {
          assert KeyFrom(p, ps[1..], resource, field);
        }
      }
    }
  }

  lemma NewFieldValid(resource: string, field: string)
    requires ValidIdentifier(resource) && field != "" && Trimmed(field)
    ensures FieldPolicyValid(FieldPolicy(resource, field, false, true, false, false, "", false, []))
  {
  }

  lemma WriteKeepsValid(p: FieldPolicy)
    requires FieldPolicyValid(p)
    ensures FieldPolicyValid(p.(write := true))
  {
    hide DistinctKeys, RuleValid, Blank, ValidIdentifier;
  }

  lemma {:induction false} GrantWritesValid(ps: seq<FieldPolicy>, resource: string, fields: seq<string>,
                                            seen: set<string>)
    requires (forall p | p in ps :: FieldPolicyValid(p)) && DistinctKeys(ps, FieldKey) && ValidIdentifier(resource)
    ensures var r := GrantWrites(ps, resource, fields, seen);
            (forall p | p in r :: FieldPolicyValid(p)) && DistinctKeys(r, FieldKey)
    decreases |fields|
  {
    hide DistinctKeys, FieldPolicyValid, ValidIdentifier, GrantWrite, Trim;
    if fields != [] {
      var field := Trim(fields[0]);
      if field == "" || field in seen {
        GrantWritesValid(ps, resource, fields[1..], seen);
      } else {
        GrantWriteValid(ps, resource, field);
        GrantWritesValid(GrantWrite(ps, resource, field), resource, fields[1..], seen + {field});
      }
    }
  }

  lemma DraftGrantsValid(b: AccessBundle, g: ExecutionGrant)
    requires (forall x | x in b.functionGrants :: GrantValid(x)) && DistinctKeys(b.functionGrants, GrantKey)
    requires GrantAdmitted(b, g).Pass? && g.resource != "*" && g.action != "*"
    ensures var d := Draft(b, g).functionGrants; (forall x | x in d :: GrantValid(x)) && DistinctKeys(d, GrantKey)
  {
    hide ValidIdentifier, DerivedPolicies, GrantWrites;
    if !AllowGate(b.functionGrants, g.resource, g.action).GateOpen? {
      var s, extra := b.functionGrants, FunctionGrant(g.resource, g.action, Allow);
      var ks := Map(GrantKey, s + [extra]);
      forall i, j | 0 <= i < j < |ks|
        ensures ks[i] != ks[j]
      {
        if j < |s| {
          assert Map(GrantKey, s)[i] != Map(GrantKey, s)[j];
        } else {
          assert s[i] in s;
        }
      }
    }
  }

  /** Once a grant is admitted, the final validation can only object to a wildcard target. */
  lemma FinalValidation(b: AccessBundle, g: ExecutionGrant, now: int)
    requires BundleCheck(b, now).Pass? && GrantAdmitted(b, g).Pass?
    ensures BundleCheck(Draft(b, g), now).Pass? <==> g.resource != "*" && g.action != "*"
  {
    hide BundleCheck, HeaderCheck, DerivedPolicies, GrantWrites, DistinctKeys, GrantValid, DataPolicyValid,
      FieldPolicyValid, ReferenceCheck, ExportCheck,
      GuardrailValid, AllowGate, ValidIdentifier;
    var d := Draft(b, g);
    ValidationMeaning(b, now);
    ValidationMeaning(d, now);
    if g.resource != "*" && g.action != "*" {
      DraftGrantsValid(b, g);
      if Projecting(g) {
        DerivedPoliciesValid(b.dataPolicies, g);
      }
      GrantWritesValid(b.fieldPolicies, g.resource, g.fields, {});
      assert HeaderCheck(d, now) == HeaderCheck(b, now) by { HeaderKept(b, d, now); }
    } else if WellFormed(d, now) {
      TargetGranted(b, g);
      var x :| x in d.functionGrants && GrantNames(x, g.resource, g.action);
      NoWildcard(x);
    }
  }

  lemma NoWildcard(x: FunctionGrant)
    requires GrantValid(x)
    ensures x.resource != "*" && x.action != "*"
  {
  }

}
