/** Restriction of a bundle to a credential's resource.action scopes. */
module Restriction {
  import opened Wrappers
  import opened Text
  import opened Lists
  import opened Contract
  import opened Validation
  import opened Field
  import opened FieldLaws
  import opened Evaluator

  /** The `allowed` map: the trimmed, non-blank scopes. */
  function Allowed(scopes: seq<string>): set<string> {
    (set s | s in scopes :: Trim(s)) - {""}
  }

  predicate InScope(allowed: set<string>, resource: string, action: string) {
    resource + "." + action in allowed
  }

  function GrantStays(allowed: set<string>): FunctionGrant -> bool {
    (g: FunctionGrant) => g.effect == Deny || InScope(allowed, g.resource, g.action)
  }

  function PolicyStays(allowed: set<string>): DataPolicy -> bool {
    (p: DataPolicy) => p.effect == Deny || InScope(allowed, p.resource, p.action)
  }

  function ReferenceStays(allowed: set<string>): ReferencePolicy -> bool {
    (p: ReferencePolicy) => InScope(allowed, p.sourceResource, "read")
  }

  function ExportStays(allowed: set<string>): ExportPolicy -> bool {
    (p: ExportPolicy) => InScope(allowed, p.resource, "export")
  }

  function Narrow(allowed: set<string>): FieldPolicy -> FieldPolicy {
    (p: FieldPolicy) => p.(read := p.read && InScope(allowed, p.resource, "read"),
                           write := p.write && (InScope(allowed, p.resource, "create")
                               || InScope(allowed, p.resource, "update")),
                           export_ := p.export_ && InScope(allowed, p.resource, "export"))
  }

  predicate AnyAccess(p: FieldPolicy) {
    p.read || p.write || p.export_
  }

  function NarrowFields(allowed: set<string>, ps: seq<FieldPolicy>): seq<FieldPolicy> {
    Filter(AnyAccess, Map(Narrow(allowed), ps))
  }

  /** What `RestrictAccess` returns. */
  function Restricted(b: AccessBundle, allowed: set<string>): AccessBundle {
    b.(functionGrants := Filter(GrantStays(allowed), b.functionGrants),
       dataPolicies := Filter(PolicyStays(allowed), b.dataPolicies),
       fieldPolicies := NarrowFields(allowed, b.fieldPolicies),
       referencePolicies := Filter(ReferenceStays(allowed), b.referencePolicies),
       exportPolicies := Filter(ExportStays(allowed), b.exportPolicies))
  }

  /** The append loops over grants, data policies, references and exports. */
  method Keep<T>(s: seq<T>, keep: T -> bool) returns (r: seq<T>)
    ensures r == Filter(keep, s)
  {
    r := [];
    for i := 0 to |s|
      invariant r == Filter(keep, s[..i])
    {
      assert s[..i + 1] == s[..i] + [s[i]];
      FilterSnoc(keep, s[..i], s[i]);
      if keep(s[i]) { r := r + [s[i]]; }
    }
    assert s[..|s|] == s;
  }

  /** The field loop: narrow, and drop what gives nothing any more. */
  method KeepFields(ps: seq<FieldPolicy>, allowed: set<string>) returns (r: seq<FieldPolicy>)
    ensures r == NarrowFields(allowed, ps)
  {
    r := [];
    for i := 0 to |ps|
      invariant r == NarrowFields(allowed, ps[..i])
    {
      assert ps[..i + 1] == ps[..i] + [ps[i]];
      MapSnoc(Narrow(allowed), ps[..i], ps[i]);
      FilterSnoc(AnyAccess, Map(Narrow(allowed), ps[..i]), Narrow(allowed)(ps[i]));
      var p := ps[i];
      p := p.(read := p.read && InScope(allowed, p.resource, "read"));
      p := p.(write := p.write && (InScope(allowed, p.resource, "create") || InScope(allowed, p.resource, "update")));
      p := p.(export_ := p.export_ && InScope(allowed, p.resource, "export"));
      if p.read || p.write || p.export_ { r := r + [p]; }
    }
    assert ps[..|ps|] == ps;
  }

  /** `RestrictAccess`. */
  method RestrictAccess(b: AccessBundle, scopes: seq<string>) returns (r: AccessBundle)
    ensures r == Restricted(b, Allowed(scopes))
  {
    var allowed: set<string> := {};
    for i := 0 to |scopes|
      invariant allowed == Allowed(scopes[..i])
    {
      assert scopes[..i + 1] == scopes[..i] + [scopes[i]];
      AllowedSnoc(scopes[..i], scopes[i]);
      if Trim(scopes[i]) != "" { allowed := allowed + {Trim(scopes[i])}; }
    }
    assert scopes[..|scopes|] == scopes;
    var functions := Keep(b.functionGrants, GrantStays(allowed));
    var data := Keep(b.dataPolicies, PolicyStays(allowed));
    var fields := KeepFields(b.fieldPolicies, allowed);
    var references := Keep(b.referencePolicies, ReferenceStays(allowed));
    var exports := Keep(b.exportPolicies, ExportStays(allowed));
    return b.(functionGrants := functions, dataPolicies := data, fieldPolicies := fields,
        referencePolicies := references, exportPolicies := exports);
  }

  lemma AllowedSnoc(scopes: seq<string>, scope: string)
    ensures Allowed(scopes + [scope]) == Allowed(scopes) + if Trim(scope) != "" then {Trim(scope)} else {}
  {
    hide Trim;
    assert forall s | s in scopes :: s in scopes + [scope];
    assert scope in scopes + [scope];
  }

  // ----- Validity -----

  lemma NarrowMembers(allowed: set<string>, ps: seq<FieldPolicy>)
    ensures forall p | p in ps && AnyAccess(Narrow(allowed)(p)) :: Narrow(allowed)(p) in NarrowFields(allowed, ps)
    ensures forall q | q in NarrowFields(allowed, ps) :: AnyAccess(q) && exists p | p in ps :: q == Narrow(allowed)(p)
  {
    var m := Map(Narrow(allowed), ps);
    forall p | p in ps
      ensures Narrow(allowed)(p) in m
    {
      var i :| 0 <= i < |ps| && ps[i] == p;
      assert m[i] == Narrow(allowed)(p);
    }
    forall q | q in m
      ensures exists p | p in ps :: q == Narrow(allowed)(p)
    {
      var i :| 0 <= i < |m| && m[i] == q;
      assert ps[i] in ps && q == Narrow(allowed)(ps[i]);
    }
  }

  lemma NarrowValid(p: FieldPolicy, allowed: set<string>)
    requires FieldPolicyValid(p)
    ensures FieldPolicyValid(Narrow(allowed)(p))
  {
    hide DistinctKeys, RuleValid, Blank, ValidIdentifier, InScope;
  }

  lemma NarrowKeepsKeys(allowed: set<string>)
    ensures forall p :: FieldKey(Narrow(allowed)(p)) == FieldKey(p)
  {
    hide InScope;
  }

  lemma NarrowKeys<K>(allowed: set<string>, key: FieldPolicy -> K, ps: seq<FieldPolicy>)
    requires DistinctKeys(ps, key) && forall p :: key(Narrow(allowed)(p)) == key(p)
    ensures DistinctKeys(NarrowFields(allowed, ps), key)
  {
    hide Narrow;
    var m := Map(Narrow(allowed), ps);
    assert Map(key, m) == Map(key, ps);
    FilterKeys(AnyAccess, key, m);
  }

  lemma NarrowFieldsValid(allowed: set<string>, ps: seq<FieldPolicy>)
    requires (forall p | p in ps :: FieldPolicyValid(p)) && DistinctKeys(ps, FieldKey)
    ensures var qs := NarrowFields(allowed, ps);
            (forall q | q in qs :: FieldPolicyValid(q)) && DistinctKeys(qs, FieldKey)
  {
    hide FieldPolicyValid, DistinctKeys, NarrowFields, Narrow;
    NarrowKeepsKeys(allowed);
    NarrowKeys(allowed, FieldKey, ps);
    NarrowMembers(allowed, ps);
    forall p | p in ps
      ensures FieldPolicyValid(Narrow(allowed)(p))
    {
      NarrowValid(p, allowed);
    }
  }

  lemma RestrictedValid(b: AccessBundle, allowed: set<string>, now: int)
    requires WellFormed(b, now)
    ensures WellFormed(Restricted(b, allowed), now)
  {
    hide HeaderCheck, DistinctKeys, GrantValid, DataPolicyValid, FieldPolicyValid, ReferenceCheck, ExportCheck,
      GuardrailValid, NarrowFields, Filter,
      GrantStays, PolicyStays, ReferenceStays, ExportStays;
    var d := Restricted(b, allowed);
    assert HeaderCheck(d, now) == HeaderCheck(b, now) by { HeaderKept(b, d, now); }
    FilterKeys(GrantStays(allowed), GrantKey, b.functionGrants);
    FilterKeys(PolicyStays(allowed), DataKey, b.dataPolicies);
    NarrowFieldsValid(allowed, b.fieldPolicies);
    FilterKeys(ReferenceStays(allowed), ReferenceKey, b.referencePolicies);
    FilterKeys(ExportStays(allowed), ExportKey, b.exportPolicies);
  }

  // ----- Records -----

  lemma GateInScope(grants: seq<FunctionGrant>, allowed: set<string>, resource: string, action: string)
    requires InScope(allowed, resource, action)
    ensures FunctionGate(Filter(GrantStays(allowed), grants), resource, action)
              == FunctionGate(grants, resource, action)
  {
    hide Filter, InScope;
  }

  lemma GateOutOfScope(grants: seq<FunctionGrant>, allowed: set<string>, resource: string, action: string)
    requires !InScope(allowed, resource, action)
    ensures !FunctionGate(Filter(GrantStays(allowed), grants), resource, action).GateOpen?
  {
    hide Filter, InScope;
  }

  lemma ScanInScope(ps: seq<DataPolicy>, allowed: set<string>, resource: string, action: string, facts: ResourceFacts,
                    context: EvaluationContext)
    requires (forall p | p in ps :: DataPolicyValid(p)) && InScope(allowed, resource, action)
    ensures ScanPolicies(Filter(PolicyStays(allowed), ps), resource, action, facts, context, false, false, false)
         == ScanPolicies(ps, resource, action, facts, context, false, false, false)
  {
    hide DataPolicyValid, Filter, ScanPolicies, InScope, PolicyApplies;
    forall p | p in ps && !PolicyStays(allowed)(p)
      ensures !PolicyApplies(p, resource, action)
    {
      UnrelatedReads(p, resource, action, facts, context);
    }
    ScanSkips(PolicyStays(allowed), ps, resource, action, facts, context, false, false, false);
  }

  /** A record request in scope gets the same decision from the restricted bundle, code, key and audit flag included;
      one out of scope is never allowed. */
  lemma RestrictionLaw(b: AccessBundle, allowed: set<string>, request: AccessRequest, facts: ResourceFacts,
                       context: EvaluationContext, now: int)
    requires BundleCheck(b, now).Pass? && Blank(request.fieldKey)
    ensures var resource, action := Trim(request.objectKey), Trim(request.action);
            && (InScope(allowed, resource, action) ==>
                  Verdict(Restricted(b, allowed), request, facts, context, now)
                      == Verdict(b, request, facts, context, now))
            && (!InScope(allowed, resource, action) ==>
                  !Verdict(Restricted(b, allowed), request, facts, context, now).Allowed())
  {
    hide BundleCheck, WellFormed, FunctionGate, ScanPolicies, ScanRecordGuardrails, ValidIdentifier, Trim, InScope,
      NarrowFields, Filter, DataPolicyValid,
      GrantValid, DistinctKeys, GrantStays, PolicyStays, ReferenceStays, ExportStays;
    var resource, action := Trim(request.objectKey), Trim(request.action);
    ValidationMeaning(b, now);
    RestrictedValid(b, allowed, now);
    ValidationMeaning(Restricted(b, allowed), now);
    WellFormedPolicies(b, now);
    if InScope(allowed, resource, action) {
      GateInScope(b.functionGrants, allowed, resource, action);
      ScanInScope(b.dataPolicies, allowed, resource, action, facts, context);
    } else {
      GateOutOfScope(b.functionGrants, allowed, resource, action);
    }
  }

  // ----- Fields -----

  /** The entry that decides about the field is dropped while another one that names the field survives. */
  predicate Uncovered(b: AccessBundle, allowed: set<string>, resource: string, field: string) {
    var best := BestPolicy(b.fieldPolicies, resource, field, None, -1);
    && best.Some? && !AnyAccess(Narrow(allowed)(best.value))
    && exists p | p in b.fieldPolicies :: PolicyNames(p, resource, field) && AnyAccess(Narrow(allowed)(p))
  }

  predicate NoWildcards(ps: seq<FieldPolicy>) {
    forall p | p in ps :: p.resource != "*" && Trim(p.field) != "*"
  }

  /** Without wildcard entries nothing else names the field. */
  lemma NoWildcardsCover(b: AccessBundle, allowed: set<string>, resource: string, field: string)
    requires NoWildcards(b.fieldPolicies) && Unambiguous(b.fieldPolicies) && Trimmed(field)
    ensures !Uncovered(b, allowed, resource, field)
  {
    hide BestPolicy, Narrow, DistinctKeys;
    BestPolicyScan(b.fieldPolicies, resource, field, None, -1);
    var best := BestPolicy(b.fieldPolicies, resource, field, None, -1);
    if best.Some? {
      forall p | p in b.fieldPolicies && PolicyNames(p, resource, field)
        ensures p == best.value
      {
        KeyDetermines(b.fieldPolicies, NamedKey, p, best.value);
      }
    }
  }

  function NarrowChoice(best: Option<FieldPolicy>, allowed: set<string>): Option<FieldPolicy> {
    if best.Some? && AnyAccess(Narrow(allowed)(best.value)) then Some(Narrow(allowed)(best.value)) else None
  }

  lemma NarrowNames(p: FieldPolicy, allowed: set<string>, resource: string, field: string)
    ensures PolicyNames(Narrow(allowed)(p), resource, field) == PolicyNames(p, resource, field)
    ensures Score(Narrow(allowed)(p), resource, field) == Score(p, resource, field)
    ensures Narrow(allowed)(p).field == p.field
  {
    hide Trim, InScope;
  }

  /** The scans of the original and of the narrowed list, side by side: as long as the best entry so far survives, its
      narrowed copy is the best survivor. */
  predicate SideBySide(allowed: set<string>, best: Option<FieldPolicy>, score: int, best': Option<FieldPolicy>,
                       score': int)
  {
    && score' <= score
    && (best.Some? && AnyAccess(Narrow(allowed)(best.value)) ==>
          best' == Some(Narrow(allowed)(best.value)) && score' == score)
  }

  lemma {:induction false} NarrowScan(allowed: set<string>, ps: seq<FieldPolicy>, resource: string, field: string,
                                      best: Option<FieldPolicy>, score: int, best': Option<FieldPolicy>, score': int)
    requires SideBySide(allowed, best, score, best', score')
    ensures var r := BestPolicy(ps, resource, field, best, score);
            r.Some? && AnyAccess(Narrow(allowed)(r.value)) ==>
              BestPolicy(NarrowFields(allowed, ps), resource, field, best', score') == Some(Narrow(allowed)(r.value))
    decreases |ps|
  {
    hide Narrow, AnyAccess, PolicyNames, Score, NarrowFields;
    if ps == [] {
      NarrowFieldsNone(allowed);
    } else {
      var p, rest := ps[0], ps[1..];
      assert ps == [p] + rest;
      NarrowFieldsCons(allowed, p, rest);
      NarrowNames(p, allowed, resource, field);
      var q, t := Narrow(allowed)(p), Score(p, resource, field);
      assert ([q] + NarrowFields(allowed, rest))[1..] == NarrowFields(allowed, rest);
      var better, better' := PolicyNames(p, resource, field) && t > score,
          AnyAccess(q) && PolicyNames(p, resource, field) && t > score';
      NarrowScan(allowed, rest, resource, field, if better then Some(p) else best, if better then t else score,
          if better' then Some(q) else best', if better' then t else score');
    }
  }

  /** The restricted bundle decides about a field by the narrowed copy of the same entry exactly when nothing is
      uncovered. */
  lemma RestrictedChoice(b: AccessBundle, allowed: set<string>, resource: string, field: string)
    ensures BestPolicy(NarrowFields(allowed, b.fieldPolicies), resource, field, None, -1)
              == NarrowChoice(BestPolicy(b.fieldPolicies, resource, field, None, -1), allowed)
        <==> !Uncovered(b, allowed, resource, field)
  {
    hide BestPolicy, Narrow, PolicyNames, Score, NarrowFields, AnyAccess;
    var ps, qs := b.fieldPolicies, NarrowFields(allowed, b.fieldPolicies);
    NarrowScan(allowed, ps, resource, field, None, -1, None, -1);
    BestPolicyScan(ps, resource, field, None, -1);
    BestPolicyScan(qs, resource, field, None, -1);
    NarrowMembers(allowed, ps);
    forall p
      ensures PolicyNames(Narrow(allowed)(p), resource, field) == PolicyNames(p, resource, field)
    {
      NarrowNames(p, allowed, resource, field);
    }
  }

  predicate Granted(r: Result<FieldDecision>) {
    r.Ok? && (r.value.effect.FieldAllow? || r.value.effect.FieldMask?)
  }

  lemma NarrowBaseline(p: FieldPolicy, allowed: set<string>, action: string)
    ensures var q := Narrow(allowed)(p);
            q.reason == p.reason && q.rules == p.rules
                && (Granted(Ok(Baseline(q, action))) ==> Granted(Ok(Baseline(p, action))))
  {
    hide InScope;
  }

  lemma NarrowDecision(best: Option<FieldPolicy>, allowed: set<string>, action: string,
                       matches: Option<PredicateMatcher>)
    ensures Granted(PolicyDecision(NarrowChoice(best, allowed), action, matches)) ==>
              Granted(PolicyDecision(best, action, matches))
  {
    hide Baseline, DecidingRule, Sort, Narrow, AnyAccess;
    if best.Some? {
      NarrowBaseline(best.value, allowed, action);
    }
  }

  /** Restriction opens a field the bundle kept closed only where it uncovers a broader entry. */
  lemma FieldRestrictionLaw(b: AccessBundle, allowed: set<string>, request: FieldRequest,
                            matches: Option<PredicateMatcher>)
    ensures Granted(FieldVerdict(Restricted(b, allowed), request, matches))
              && !Granted(FieldVerdict(b, request, matches)) ==>
              Uncovered(b, allowed, request.resource, Trim(request.field))
  {
    hide BestPolicy, NarrowFields, Uncovered, PolicyDecision, FieldGuardrail,
      RequestValid, Filter, Trim, NarrowChoice,
      GrantStays, PolicyStays, ReferenceStays, ExportStays;
    RestrictedChoice(b, allowed, request.resource, Trim(request.field));
    NarrowDecision(BestPolicy(b.fieldPolicies, request.resource, Trim(request.field), None, -1), allowed,
        NormalAction(request.action), matches);
  }

  /** The scopes cover the kind of access an action on a field is. */
  predicate Covers(allowed: set<string>, resource: string, action: string) {
    if action in {"read", "list", "view", "search", "report", "audit"} then InScope(allowed, resource, "read")
    else if action == "export" then InScope(allowed, resource, "export")
    else InScope(allowed, resource, "create") || InScope(allowed, resource, "update")
  }

  /** Restriction leaves a field decision alone when the deciding entry survives and the scopes cover the access asked
      for. */
  lemma CoveredFieldUntouched(b: AccessBundle, allowed: set<string>, request: FieldRequest,
                              matches: Option<PredicateMatcher>)
    requires var best := BestPolicy(b.fieldPolicies, request.resource, Trim(request.field), None, -1);
             best.Some? && AnyAccess(Narrow(allowed)(best.value))
                 && Covers(allowed, best.value.resource, NormalAction(request.action))
    ensures FieldVerdict(Restricted(b, allowed), request, matches) == FieldVerdict(b, request, matches)
  {
    hide BestPolicy, NarrowFields, FieldGuardrail, RequestValid, Filter, Trim, GrantStays, PolicyStays,
      ReferenceStays, ExportStays, InScope, DecidingRule, Sort, NormalAction;
    RestrictedChoice(b, allowed, request.resource, Trim(request.field));
  }

  /** Whatever is asked for, record or field, restriction allows something the bundle refused only where it uncovers a
      broader entry. */
  lemma RestrictionNeverWidens(b: AccessBundle, allowed: set<string>, request: AccessRequest, facts: ResourceFacts,
                               context: EvaluationContext, now: int)
    requires BundleCheck(b, now).Pass?
    ensures Verdict(Restricted(b, allowed), request, facts, context, now).Allowed()
              && !Verdict(b, request, facts, context, now).Allowed() ==>
              Uncovered(b, allowed, Trim(request.objectKey), Trim(request.fieldKey))
  {
    hide BundleCheck, WellFormed, RecordAllowed, ValidIdentifier, Trim, InScope, Restricted, FieldVerdict,
      DistinctKeys, Uncovered, Layers, Matcher;
    var resource, action, record := Trim(request.objectKey), Trim(request.action), request.(fieldKey := "");
    assert Blank(record.fieldKey) by { EmptyIsBlank(); }
    RestrictionLaw(b, allowed, record, facts, context, now);
    RestrictedStillValid(b, allowed, now);
    AllowedMeaning(b, record, facts, context, now);
    AllowedMeaning(Restricted(b, allowed), record, facts, context, now);
    AllowedByLayers(b, request, facts, context);
    AllowedByLayers(Restricted(b, allowed), request, facts, context);
    TrimTwice(request.fieldKey);
    FieldRestrictionLaw(b, allowed, FieldRequest(resource, Trim(request.fieldKey), request.action),
        Some(Matcher(facts, context)));
  }

  lemma RestrictedStillValid(b: AccessBundle, allowed: set<string>, now: int)
    requires BundleCheck(b, now).Pass?
    ensures BundleCheck(Restricted(b, allowed), now).Pass? && DistinctKeys(b.fieldPolicies, FieldKey)
  {
    hide BundleCheck, Restricted, DistinctKeys, HeaderCheck, GrantValid, DataPolicyValid, FieldPolicyValid,
      ReferenceCheck, ExportCheck, GuardrailValid;
    ValidationMeaning(b, now);
    RestrictedValid(b, allowed, now);
    ValidationMeaning(Restricted(b, allowed), now);
  }

  /** With a wildcard the law breaks: a closed exact entry is dropped, and the wildcard entry behind it opens the
      field. */
  lemma WildcardUncovers(resource: string, field: string, reason: string)
    requires ValidIdentifier(resource) && resource != "*" && field != "" && field != "*" && Trimmed(field)
    ensures var exact := FieldPolicy(resource, field, false, false, false, false, reason, false, []);
            var broad := FieldPolicy(resource, "*", true, false, false, false, reason, false, []);
            var b := AccessBundle("", "", None, Subject("", "", "", [], "", [], []), [], [], [exact, broad], [], [],
                []);
            var allowed := {resource + ".read"};
            && !Granted(FieldVerdict(b, FieldRequest(resource, field, "read"), None))
            && Granted(FieldVerdict(Restricted(b, allowed), FieldRequest(resource, field, "read"), None))
  {
    var exact := FieldPolicy(resource, field, false, false, false, false, reason, false, []);
    var broad := FieldPolicy(resource, "*", true, false, false, false, reason, false, []);
    var allowed := {resource + ".read"};
    ReadIsNormal();
    WildcardScores(resource, field, reason);
    assert resource + ".read" == resource + "." + "read";
    assert InScope(allowed, resource, "read");
    assert Narrow(allowed)(broad) == broad && !AnyAccess(Narrow(allowed)(exact)) && AnyAccess(broad);
    hide Trim, NormalAction, ValidIdentifier, InScope, NarrowFields, BestPolicy, Narrow, AnyAccess, Sort, Filter;
    SecondSurvives(allowed, exact, broad);
    BestOfTwo(exact, broad, resource, field);
    BestOfOne(broad, resource, field);
    NoRules(exact, "read");
    NoRules(broad, "read");
  }

  lemma SecondSurvives(allowed: set<string>, p: FieldPolicy, q: FieldPolicy)
    requires !AnyAccess(Narrow(allowed)(p)) && AnyAccess(q) && Narrow(allowed)(q) == q
    ensures NarrowFields(allowed, [p, q]) == [q]
  {
    hide Narrow, AnyAccess, NarrowFields;
    NarrowFieldsCons(allowed, p, [q]);
    NarrowFieldsCons(allowed, q, []);
    NarrowFieldsNone(allowed);
    assert [p] + [q] == [p, q] && [q] + [] == [q];
  }

  lemma NoRules(p: FieldPolicy, action: string)
    requires p.rules == []
    ensures PolicyDecision(Some(p), action, None) == Ok(Baseline(p, action))
  {
    hide Baseline;
  }

  lemma LowerRead()
    ensures Lower("read") == "read"
  {
    assert Lower("read") == ['r'] + Lower("ead") && Lower("ead") == ['e'] + Lower("ad")
        && Lower("ad") == ['a'] + Lower("d") && Lower("d") == ['d'] + Lower("");
  }

  lemma ReadIsNormal()
    ensures NormalAction("read") == "read" && ValidIdentifier("read") && Trim("*") == "*"
  {
    LowerRead();
    hide Lower;
    assert Trim("read") == "read";
    hide Trim;
  }

  lemma WildcardScores(resource: string, field: string, reason: string)
    requires resource != "*" && field != "" && field != "*" && Trimmed(field)
    ensures var exact := FieldPolicy(resource, field, false, false, false, false, reason, false, []);
            var broad := FieldPolicy(resource, "*", true, false, false, false, reason, false, []);
            && PolicyNames(exact, resource, field) && PolicyNames(broad, resource, field)
            && Score(exact, resource, field) == 3 && Score(broad, resource, field) == 2
            && Trim(field) == field
  {
  }

  lemma BestOfTwo(p: FieldPolicy, q: FieldPolicy, resource: string, field: string)
    requires PolicyNames(p, resource, field) && PolicyNames(q, resource, field)
               && Score(p, resource, field) >= Score(q, resource, field)
    ensures BestPolicy([p, q], resource, field, None, -1) == Some(p)
  {
    hide PolicyNames, Score;
    assert [p, q][1..] == [q] && [q][1..] == [];
    assert BestPolicy([p, q], resource, field, None, -1)
        == BestPolicy([q], resource, field, Some(p), Score(p, resource, field));
  }

  lemma BestOfOne(p: FieldPolicy, resource: string, field: string)
    requires PolicyNames(p, resource, field)
    ensures BestPolicy([p], resource, field, None, -1) == Some(p)
  {
    hide PolicyNames, Score;
    assert [p][1..] == [];
  }

  // ----- Restricting twice -----

  lemma {:induction false} FilterCommutes<T>(p: T -> bool, q: T -> bool, s: seq<T>)
    ensures Filter(p, Filter(q, s)) == Filter(q, Filter(p, s))
  {
    if s != [] {
      FilterCommutes(p, q, s[1..]);
      FilterCons(p, s[0], Filter(q, s[1..]));
      FilterCons(q, s[0], Filter(p, s[1..]));
    }
  }

  lemma FilterCons<T>(p: T -> bool, x: T, s: seq<T>)
    ensures Filter(p, [x] + s) == (if p(x) then [x] else []) + Filter(p, s)
    ensures [] + s == s
  {
    assert ([x] + s)[1..] == s;
  }

  lemma NarrowTwice(p: FieldPolicy, s: set<string>, t: set<string>)
    ensures Narrow(t)(Narrow(s)(p)) == Narrow(s)(Narrow(t)(p))
    ensures Narrow(s)(Narrow(s)(p)) == Narrow(s)(p)
    ensures !AnyAccess(Narrow(s)(p)) ==> !AnyAccess(Narrow(t)(Narrow(s)(p)))
  {
    hide InScope;
  }

  lemma {:induction false} NarrowFieldsTwice(ps: seq<FieldPolicy>, s: set<string>, t: set<string>)
    ensures NarrowFields(t, NarrowFields(s, ps)) == NarrowFields(s, NarrowFields(t, ps))
    ensures NarrowFields(s, NarrowFields(s, ps)) == NarrowFields(s, ps)
  {
    hide Narrow, AnyAccess, NarrowFields;
    if ps == [] {
      NarrowFieldsNone(s);
      NarrowFieldsNone(t);
    } else {
      var p, rest := ps[0], ps[1..];
      assert ps == [p] + rest;
      NarrowFieldsTwice(rest, s, t);
      NarrowTwice(p, s, t);
      NarrowTwice(p, t, s);
      NarrowFieldsCons(s, p, rest);
      NarrowFieldsCons(t, p, rest);
      NarrowFieldsCons(t, Narrow(s)(p), NarrowFields(s, rest));
      NarrowFieldsCons(s, Narrow(t)(p), NarrowFields(t, rest));
      NarrowFieldsCons(s, Narrow(s)(p), NarrowFields(s, rest));
    }
  }

  lemma NarrowFieldsNone(s: set<string>)
    ensures NarrowFields(s, []) == []
  {
  }

  lemma NarrowFieldsCons(s: set<string>, p: FieldPolicy, rest: seq<FieldPolicy>)
    ensures NarrowFields(s, [p] + rest) == if AnyAccess(Narrow(s)(p)) then [Narrow(s)(p)] + NarrowFields(s, rest)
              else NarrowFields(s, rest)
  {
    hide Narrow, AnyAccess;
    var m := Map(Narrow(s), [p] + rest);
    assert ([p] + rest)[1..] == rest;
    assert m == [Narrow(s)(p)] + Map(Narrow(s), rest);
    FilterCons(AnyAccess, Narrow(s)(p), Map(Narrow(s), rest));
  }

  lemma {:induction false} FilterTwice<T>(p: T -> bool, s: seq<T>)
    ensures Filter(p, Filter(p, s)) == Filter(p, s)
  {
    if s != [] {
      FilterTwice(p, s[1..]);
      FilterCons(p, s[0], Filter(p, s[1..]));
    }
  }

  /** Restrictions commute, and repeating one changes nothing. */
  lemma RestrictionsCompose(b: AccessBundle, s: set<string>, t: set<string>)
    ensures Restricted(Restricted(b, s), t) == Restricted(Restricted(b, t), s)
    ensures Restricted(Restricted(b, s), s) == Restricted(b, s)
  {
    hide Filter, NarrowFields, GrantStays, PolicyStays, ReferenceStays, ExportStays;
    FilterCommutes(GrantStays(t), GrantStays(s), b.functionGrants);
    FilterCommutes(PolicyStays(t), PolicyStays(s), b.dataPolicies);
    FilterCommutes(ReferenceStays(t), ReferenceStays(s), b.referencePolicies);
    FilterCommutes(ExportStays(t), ExportStays(s), b.exportPolicies);
    FilterTwice(GrantStays(s), b.functionGrants);
    FilterTwice(PolicyStays(s), b.dataPolicies);
    FilterTwice(ReferenceStays(s), b.referencePolicies);
    FilterTwice(ExportStays(s), b.exportPolicies);
    NarrowFieldsTwice(b.fieldPolicies, s, t);
  }
}
