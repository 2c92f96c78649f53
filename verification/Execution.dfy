/** Execution grants: one extra verb on one target, seen through the record scope of an already granted source. */
module Execution {
  import opened Wrappers
  import opened Text
  import opened Lists
  import opened Contract
  import opened Validation
  import opened Evaluator

  datatype ExecutionGrant = ExecutionGrant(resource: string, action: string, fields: seq<string>,
      sourceResource: string, sourceAction: string)

  predicate SourceSpecified(g: ExecutionGrant) {
    g.sourceResource != "" || g.sourceAction != ""
  }

  predicate Projecting(g: ExecutionGrant) {
    SourceSpecified(g) && (g.sourceResource != g.resource || g.sourceAction != g.action)
  }

  /** Any deny wins; otherwise an allow is needed. */
  function AllowGate(grants: seq<FunctionGrant>, resource: string, action: string): Gate {
    if exists g | g in grants :: GrantNames(g, resource, action) && g.effect == Deny then GateDenied
    else if exists g | g in grants :: GrantNames(g, resource, action) && g.effect == Allow then GateOpen
    else GateClosed
  }

  // ----- Data policies -----

  predicate Names(p: DataPolicy, resource: string, action: string) {
    p.resource == resource && p.action == action
  }

  predicate TargetAllow(p: DataPolicy, g: ExecutionGrant) {
    Names(p, g.resource, g.action) && p.effect == Allow
  }

  function Kept(g: ExecutionGrant): DataPolicy -> bool {
    p => !TargetAllow(p, g)
  }

  function FromSource(g: ExecutionGrant): DataPolicy -> bool {
    p => Names(p, g.sourceResource, g.sourceAction)
  }

  function ProjectedKey(p: DataPolicy, g: ExecutionGrant): string {
    p.key + ".execution." + g.resource + "." + g.action
  }

  function Projected(g: ExecutionGrant): DataPolicy -> DataPolicy {
    (p: DataPolicy) => p.(key := ProjectedKey(p, g), resource := g.resource, action := g.action)
  }

  /** `appendPolicy`: a policy whose key is already there is dropped. */
  function AppendNew(done: seq<DataPolicy>, p: DataPolicy): seq<DataPolicy> {
    if p.key in Keys(done) then done else done + [p]
  }

  function Keys(ps: seq<DataPolicy>): set<string> {
    set q | q in ps :: q.key
  }

  lemma KeysAppend(ps: seq<DataPolicy>, p: DataPolicy)
    ensures Keys(ps + [p]) == Keys(ps) + {p.key}
  {
    assert forall q | q in ps :: q in ps + [p];
    assert p in ps + [p];
  }

  function AppendEach(done: seq<DataPolicy>, ps: seq<DataPolicy>): seq<DataPolicy>
    decreases |ps|
  {
    if ps == [] then done else AppendEach(AppendNew(done, ps[0]), ps[1..])
  }

  function Projections(ps: seq<DataPolicy>, g: ExecutionGrant): seq<DataPolicy> {
    Map(Projected(g), Filter(FromSource(g), ps))
  }

  /** What `deriveExecutionDataPolicies` returns. */
  function DerivedPolicies(ps: seq<DataPolicy>, g: ExecutionGrant): seq<DataPolicy> {
    AppendEach(AppendEach([], Filter(Kept(g), ps)), Projections(ps, g))
  }

  lemma {:induction false} AppendEachAppend(done: seq<DataPolicy>, ps: seq<DataPolicy>, p: DataPolicy)
    ensures AppendEach(done, ps + [p]) == AppendNew(AppendEach(done, ps), p)
    decreases |ps|
  {
    hide AppendNew;
    if ps != [] {
      assert (ps + [p])[1..] == ps[1..] + [p];
      AppendEachAppend(AppendNew(done, ps[0]), ps[1..], p);
    }
  }

  /** The first loop of `deriveExecutionDataPolicies`: everything but the target's own allows. */
  method KeepLoop(ps: seq<DataPolicy>, g: ExecutionGrant) returns (result: seq<DataPolicy>, keys: set<string>)
    ensures result == AppendEach([], Filter(Kept(g), ps)) && keys == Keys(result)
  {
    hide Keys;
    result, keys := [], {};
    assert Keys([]) == {} by { NoKeyYet(); }
    for i := 0 to |ps|
      invariant result == AppendEach([], Filter(Kept(g), ps[..i])) && keys == Keys(result)
    {
      assert ps[..i + 1] == ps[..i] + [ps[i]];
      FilterSnoc(Kept(g), ps[..i], ps[i]);
      if Names(ps[i], g.resource, g.action) && ps[i].effect == Allow {
        continue;
      }
      AppendEachAppend([], Filter(Kept(g), ps[..i]), ps[i]);
      KeysAppend(result, ps[i]);
      if ps[i].key !in keys {
        keys, result := keys + {ps[i].key}, result + [ps[i]];
      }
    }
    assert ps[..|ps|] == ps;
  }

  lemma NoKeyYet()
    ensures Keys([]) == {}
  {
  }

  lemma ProjectionsAppend(ps: seq<DataPolicy>, p: DataPolicy, g: ExecutionGrant)
    ensures Projections(ps + [p], g) == Projections(ps, g) + if FromSource(g)(p) then [Projected(g)(p)] else []
  {
    hide Filter, Map, FromSource, Projected;
    var f := Filter(FromSource(g), ps);
    FilterSnoc(FromSource(g), ps, p);
    MapSnoc(Projected(g), f, p);
    assert Map(Projected(g), f) + [] == Map(Projected(g), f);
  }

  /** The second loop: the source's policies under the target's name. */
  method ProjectLoop(ps: seq<DataPolicy>, g: ExecutionGrant, kept: seq<DataPolicy>,
                     keptKeys: set<string>) returns (result: seq<DataPolicy>)
    requires keptKeys == Keys(kept)
    ensures result == AppendEach(kept, Projections(ps, g))
  {
    hide Keys, Projections;
    var keys := keptKeys;
    result := kept;
    assert Projections(ps[..0], g) == [] by { NoProjection(ps[..0], g); }
    for i := 0 to |ps|
      invariant result == AppendEach(kept, Projections(ps[..i], g)) && keys == Keys(result)
    {
      assert ps[..i + 1] == ps[..i] + [ps[i]];
      ProjectionsAppend(ps[..i], ps[i], g);
      assert Projections(ps[..i], g) + [] == Projections(ps[..i], g);
      if !Names(ps[i], g.sourceResource, g.sourceAction) {
        continue;
      }
      var projected := ps[i].(key := ProjectedKey(ps[i], g), resource := g.resource, action := g.action);
      AppendEachAppend(kept, Projections(ps[..i], g), projected);
      KeysAppend(result, projected);
      if projected.key !in keys {
        keys, result := keys + {projected.key}, result + [projected];
      }
    }
    assert ps[..|ps|] == ps;
  }

  lemma NoProjection(ps: seq<DataPolicy>, g: ExecutionGrant)
    requires ps == []
    ensures Projections(ps, g) == []
  {
  }

  /** `deriveExecutionDataPolicies`. */
  method DeriveDataPolicies(ps: seq<DataPolicy>, g: ExecutionGrant) returns (result: seq<DataPolicy>)
    ensures result == DerivedPolicies(ps, g)
  {
    var kept, keys := KeepLoop(ps, g);
    result := ProjectLoop(ps, g, kept, keys);
  }

  // ----- Field policies -----

  predicate FieldEntry(p: FieldPolicy, resource: string, field: string) {
    p.resource == resource && Trim(p.field) == field
  }

  /** Write-enables the first entry of the field, or adds one that can only be written. */
  function GrantWrite(ps: seq<FieldPolicy>, resource: string, field: string): seq<FieldPolicy>
    decreases |ps|
  {
    if ps == [] then [FieldPolicy(resource, field, false, true, false, false, "", false, [])]
    else if FieldEntry(ps[0], resource, field) then [ps[0].(write := true)] + ps[1..]
    else [ps[0]] + GrantWrite(ps[1..], resource, field)
  }

  function GrantWrites(ps: seq<FieldPolicy>, resource: string, fields: seq<string>, seen: set<string>): seq<FieldPolicy>
    decreases |fields|
  {
    if fields == [] then ps
    else
      var field := Trim(fields[0]);
      if field == "" || field in seen then GrantWrites(ps, resource, fields[1..], seen)
      else GrantWrites(GrantWrite(ps, resource, field), resource, fields[1..], seen + {field})
  }

  /** The search for an existing entry, up to the `break`. */
  method EnableWrite(ps: seq<FieldPolicy>, resource: string, field: string) returns (r: seq<FieldPolicy>)
    ensures r == GrantWrite(ps, resource, field)
  {
    for i := 0 to |ps|
      invariant forall j | 0 <= j < i :: !FieldEntry(ps[j], resource, field)
    {
      if FieldEntry(ps[i], resource, field) {
        GrantWriteAt(ps, resource, field, i);
        return ps[i := ps[i].(write := true)];
      }
    }
    GrantWriteAt(ps, resource, field, |ps|);
    return ps + [FieldPolicy(resource, field, false, true, false, false, "", false, [])];
  }

  lemma {:induction false} GrantWriteAt(ps: seq<FieldPolicy>, resource: string, field: string, i: nat)
    requires i <= |ps| && forall j | 0 <= j < i :: !FieldEntry(ps[j], resource, field)
    requires i < |ps| ==> FieldEntry(ps[i], resource, field)
    ensures GrantWrite(ps, resource, field) ==
              if i < |ps| then ps[i := ps[i].(write := true)]
                  else ps + [FieldPolicy(resource, field, false, true, false, false, "", false, [])]
    decreases i
  {
    hide FieldEntry;
    if i > 0 {
      assert forall j | 0 <= j < i - 1 :: ps[1..][j] == ps[j + 1];
      GrantWriteAt(ps[1..], resource, field, i - 1);
    }
  }

  method WriteLoop(ps: seq<FieldPolicy>, resource: string, fields: seq<string>) returns (r: seq<FieldPolicy>)
    ensures r == GrantWrites(ps, resource, fields, {})
  {
    r := ps;
    var seen: set<string> := {};
    for i := 0 to |fields|
      invariant GrantWrites(r, resource, fields[i..], seen) == GrantWrites(ps, resource, fields, {})
    {
      assert fields[i..][0] == fields[i] && fields[i..][1..] == fields[i + 1..];
      var field := Trim(fields[i]);
      if field == "" || field in seen {
        continue;
      }
      seen := seen + {field};
      r := EnableWrite(r, resource, field);
    }
  }

  // ----- The derivation -----

  /** The derived bundle before its final validation. */
  function Draft(b: AccessBundle, g: ExecutionGrant): AccessBundle {
    b.(functionGrants :=
         if AllowGate(b.functionGrants, g.resource, g.action).GateOpen? then b.functionGrants
         else b.functionGrants + [FunctionGrant(g.resource, g.action, Allow)],
       dataPolicies := if Projecting(g) then DerivedPolicies(b.dataPolicies, g) else b.dataPolicies,
       fieldPolicies := GrantWrites(b.fieldPolicies, g.resource, g.fields, {}))
  }

  /** The checks before anything is derived. */
  function GrantAdmitted(b: AccessBundle, g: ExecutionGrant): Check {
    if !ValidIdentifier(g.resource) || !ValidIdentifier(g.action) then Fail("identity.execution_grant_invalid")
    else if SourceSpecified(g) && (!ValidIdentifier(g.sourceResource) || !ValidIdentifier(g.sourceAction)) then
      Fail("identity.execution_source_invalid")
    else
      var source := AllowGate(b.functionGrants, g.sourceResource, g.sourceAction);
      if SourceSpecified(g) && source.GateDenied? then Fail("identity.execution_source_denied")
      else if SourceSpecified(g) && source.GateClosed? then Fail("identity.execution_source_not_granted")
      else Require(!AllowGate(b.functionGrants, g.resource, g.action).GateDenied?, "identity.execution_grant_denied")
  }

  /** What `DeriveExecutionAccess` returns. */
  function Derived(b: AccessBundle, g: ExecutionGrant, now: int): Result<AccessBundle> {
    match Then(BundleCheck(b, now), Then(GrantAdmitted(b, g), BundleCheck(Draft(b, g), now)))
    case Fail(code) => Err(code)
    case Pass => Ok(Draft(b, g))
  }

  method AllowLoop(grants: seq<FunctionGrant>, resource: string, action: string) returns (gate: Gate)
    ensures gate == AllowGate(grants, resource, action)
  {
    var allowed := false;
    for i := 0 to |grants|
      invariant allowed <==> exists g | g in grants[..i] :: GrantNames(g, resource, action) && g.effect == Allow
      invariant forall g | g in grants[..i] && GrantNames(g, resource, action) :: g.effect != Deny
    {
      assert grants[..i + 1] == grants[..i] + [grants[i]];
      if GrantNames(grants[i], resource, action) {
        if grants[i].effect == Deny { return GateDenied; }
        allowed := allowed || grants[i].effect == Allow;
      }
    }
    assert grants[..|grants|] == grants;
    return if allowed then GateOpen else GateClosed;
  }

  /** `DeriveExecutionAccess`. */
  method DeriveExecutionAccess(b: AccessBundle, g: ExecutionGrant, now: int) returns (r: Result<AccessBundle>)
    ensures r == Derived(b, g, now)
  {
    hide AllowGate, BundleCheck, DerivedPolicies, GrantWrites, ValidIdentifier;
    var valid := Validate(b, now);
    if valid.Fail? { return Err(valid.code); }
    if !ValidIdentifier(g.resource) || !ValidIdentifier(g.action) {
      return Err("identity.execution_grant_invalid");
    }
    var sourceSpecified := g.sourceResource != "" || g.sourceAction != "";
    if sourceSpecified && (!ValidIdentifier(g.sourceResource) || !ValidIdentifier(g.sourceAction)) {
      return Err("identity.execution_source_invalid");
    }
    var derived := b;
    if sourceSpecified {
      var source := AllowLoop(derived.functionGrants, g.sourceResource, g.sourceAction);
      if source.GateDenied? { return Err("identity.execution_source_denied"); }
      if source.GateClosed? { return Err("identity.execution_source_not_granted"); }
    }
    var target := AllowLoop(derived.functionGrants, g.resource, g.action);
    if target.GateDenied? { return Err("identity.execution_grant_denied"); }
    if !target.GateOpen? {
      derived := derived.(functionGrants := derived.functionGrants + [FunctionGrant(g.resource, g.action, Allow)]);
    }
    if sourceSpecified && (g.sourceResource != g.resource || g.sourceAction != g.action) {
      var data := DeriveDataPolicies(b.dataPolicies, g);
      derived := derived.(dataPolicies := data);
    }
    var fields := WriteLoop(derived.fieldPolicies, g.resource, g.fields);
    derived := derived.(fieldPolicies := fields);
    valid := Validate(derived, now);
    if valid.Fail? { return Err(valid.code); }
    return Ok(derived);
  }
}
