/** What an execution grant does to field access: it opens writing, and closes what only a broader entry opened. */
module ExecutionFields {
  import opened Wrappers
  import opened Text
  import opened Lists
  import opened Contract
  import opened Validation
  import opened Field
  import opened FieldLaws
  import opened Execution
  import opened ExecutionLaws

  function Choice(ps: seq<FieldPolicy>, resource: string, field: string): Option<FieldPolicy> {
    BestPolicy(ps, resource, field, None, -1)
  }

  /** The entry is one of that very name, not a wildcard that covers it. */
  predicate Exact(best: Option<FieldPolicy>, resource: string, field: string) {
    best.Some? && FieldEntry(best.value, resource, field)
  }

  function WriteOnly(resource: string, field: string): FieldPolicy {
    FieldPolicy(resource, field, false, true, false, false, "", false, [])
  }

  /** The deciding entry once writing is granted to a name: the entry of that name with writing, or a write-only one in
      front of whatever broader entry decided before. */
  function AfterWrite(best: Option<FieldPolicy>, resource: string, name: string): Option<FieldPolicy> {
    Some(if Exact(best, resource, name) then best.value.(write := true) else WriteOnly(resource, name))
  }

  predicate Requested(fields: seq<string>, field: string) {
    field != "" && exists raw | raw in fields :: Trim(raw) == field
  }

  /** Which granted name changes the decision about a field: its own, or else `*` unless the field has an entry of its
      own. */
  function Effective(fields: seq<string>, best: Option<FieldPolicy>, resource: string, field: string): Option<string> {
    if Requested(fields, field) then Some(field)
    else if Requested(fields, "*") && !Exact(best, resource, field) then Some("*")
    else None
  }

  function AfterWrites(fields: seq<string>, best: Option<FieldPolicy>, resource: string, field: string):
      Option<FieldPolicy>
  {
    match Effective(fields, best, resource, field)
    case Some(name) => AfterWrite(best, resource, name)
    case None => best
  }

  // ----- One granted name -----

  predicate Covers(granted: string, field: string) {
    granted == field || granted == "*"
  }

  /** The score of an entry of the granted name on a field it covers. */
  function GrantedScore(granted: string, field: string): nat {
    if granted == field then 3 else 2
  }

  lemma EntryNames(p: FieldPolicy, resource: string, granted: string, r: string, f: string)
    requires FieldEntry(p, resource, granted) && resource != "*" && Trimmed(f)
    ensures PolicyNames(p, r, f) <==> r == resource && Covers(granted, f)
    ensures r == resource && Covers(granted, f) ==> Score(p, r, f) == GrantedScore(granted, f)
  {
    hide Trim;
  }

  lemma OtherScores(p: FieldPolicy, resource: string, granted: string, f: string)
    requires !FieldEntry(p, resource, granted) && resource != "*" && Trimmed(f) && Covers(granted, f)
    requires PolicyNames(p, resource, f)
    ensures Score(p, resource, f) < GrantedScore(granted, f)
            || (granted != f && FieldEntry(p, resource, f) && Score(p, resource, f) == 3)
  {
    hide Trim;
  }

  lemma TopIsExact(p: FieldPolicy, resource: string, f: string)
    requires Score(p, resource, f) > 2
    ensures FieldEntry(p, resource, f)
  {
    hide Trim;
  }

  lemma WriteOnlyEntry(resource: string, field: string)
    requires Trimmed(field)
    ensures FieldEntry(WriteOnly(resource, field), resource, field)
  {
  }

  lemma SameEntry(p: FieldPolicy, resource: string, field: string)
    requires FieldEntry(p, resource, field)
    ensures FieldEntry(p.(write := true), resource, field)
  {
  }

  /** The decision about a field the name does not cover is chosen as before. */
  lemma {:induction false} OtherChoice(ps: seq<FieldPolicy>, resource: string, granted: string, r: string, f: string,
                                       best: Option<FieldPolicy>, score: int)
    requires resource != "*" && Trimmed(granted) && Trimmed(f) && !(r == resource && Covers(granted, f))
    ensures BestPolicy(GrantWrite(ps, resource, granted), r, f, best, score) == BestPolicy(ps, r, f, best, score)
    decreases |ps|
  {
    hide PolicyNames, Score, Trim, FieldEntry;
    if ps == [] {
      WriteOnlyEntry(resource, granted);
      EntryNames(WriteOnly(resource, granted), resource, granted, r, f);
    } else if FieldEntry(ps[0], resource, granted) {
      SameEntry(ps[0], resource, granted);
      EntryNames(ps[0], resource, granted, r, f);
      EntryNames(ps[0].(write := true), resource, granted, r, f);
      assert GrantWrite(ps, resource, granted)[1..] == ps[1..];
    } else if PolicyNames(ps[0], r, f) && Score(ps[0], r, f) > score {
      OtherChoice(ps[1..], resource, granted, r, f, Some(ps[0]), Score(ps[0], r, f));
      assert GrantWrite(ps, resource, granted)[1..] == GrantWrite(ps[1..], resource, granted);
    } else {
      OtherChoice(ps[1..], resource, granted, r, f, best, score);
      assert GrantWrite(ps, resource, granted)[1..] == GrantWrite(ps[1..], resource, granted);
    }
  }

  /** Two scans that differ only in the entry they start from end at their own one or at the same better one. */
  lemma {:induction false} SameStart(ps: seq<FieldPolicy>, r: string, f: string, p: FieldPolicy, q: FieldPolicy,
                                     score: int)
    ensures var x, y := BestPolicy(ps, r, f, Some(p), score), BestPolicy(ps, r, f, Some(q), score);
            (x == Some(p) && y == Some(q)) || (x == y && x.Some? && Score(x.value, r, f) > score)
    decreases |ps|
  {
    hide PolicyNames, Score;
    if ps != [] {
      if PolicyNames(ps[0], r, f) && Score(ps[0], r, f) > score {
        SameStart(ps[1..], r, f, ps[0], ps[0], Score(ps[0], r, f));
      } else {
        SameStart(ps[1..], r, f, p, q, score);
      }
    }
  }

  /** The scan over the entries after one name has been granted. */
  function AfterGrant(best: Option<FieldPolicy>, resource: string, granted: string, f: string): Option<FieldPolicy> {
    if granted != f && Exact(best, resource, f) then best else AfterWrite(best, resource, granted)
  }

  lemma GrantedEntry(ps: seq<FieldPolicy>, resource: string, granted: string, f: string, p: FieldPolicy)
    requires resource != "*" && Trimmed(f) && Covers(granted, f) && FieldEntry(p, resource, granted)
    ensures var top := GrantedScore(granted, f);
            AfterGrant(BestPolicy(ps, resource, f, Some(p), top), resource, granted, f) ==
                BestPolicy(ps, resource, f, Some(p.(write := true)), top)
  {
    hide PolicyNames, Trim, BestPolicy, Score;
    var top := GrantedScore(granted, f);
    SameStart(ps, resource, f, p.(write := true), p, top);
    var x := BestPolicy(ps, resource, f, Some(p), top);
    if x.Some? && Score(x.value, resource, f) > top {
      TopIsExact(x.value, resource, f);
      if granted == f {
        FirstOnTop(ps, resource, f, Some(p));
        FirstOnTop(ps, resource, f, Some(p.(write := true)));
      }
    }
  }

  /** The decision about a covered field is chosen by the entry that was write-enabled or added, unless the field has an
      entry of its own. */
  lemma {:induction false} OwnChoice(ps: seq<FieldPolicy>, resource: string, granted: string, f: string,
                                     best: Option<FieldPolicy>, score: int)
    requires resource != "*" && Trimmed(granted) && Trimmed(f) && Covers(granted, f)
    requires score < GrantedScore(granted, f) && !Exact(best, resource, granted) && !Exact(best, resource, f)
    ensures BestPolicy(GrantWrite(ps, resource, granted), resource, f, best, score)
         == AfterGrant(BestPolicy(ps, resource, f, best, score), resource, granted, f)
    decreases |ps|
  {
    hide PolicyNames, Score, Trim, FieldEntry;
    var written, top := GrantWrite(ps, resource, granted), GrantedScore(granted, f);
    if ps == [] {
      WriteOnlyEntry(resource, granted);
      EntryNames(WriteOnly(resource, granted), resource, granted, resource, f);
      assert written[1..] == [];
    } else if FieldEntry(ps[0], resource, granted) {
      SameEntry(ps[0], resource, granted);
      EntryNames(ps[0], resource, granted, resource, f);
      EntryNames(ps[0].(write := true), resource, granted, resource, f);
      assert written[0] == ps[0].(write := true) && written[1..] == ps[1..];
      GrantedEntry(ps[1..], resource, granted, f, ps[0]);
    } else {
      assert written[0] == ps[0] && written[1..] == GrantWrite(ps[1..], resource, granted);
      if PolicyNames(ps[0], resource, f) && Score(ps[0], resource, f) > score {
        OtherScores(ps[0], resource, granted, f);
        if Score(ps[0], resource, f) < top {
          NotExact(ps[0], resource, granted, f);
          OwnChoice(ps[1..], resource, granted, f, Some(ps[0]), Score(ps[0], resource, f));
        } else {
          FirstOnTop(ps[1..], resource, f, Some(ps[0]));
          FirstOnTop(written[1..], resource, f, Some(ps[0]));
        }
      } else {
        OwnChoice(ps[1..], resource, granted, f, best, score);
      }
    }
  }

  lemma NotExact(p: FieldPolicy, resource: string, granted: string, f: string)
    requires Score(p, resource, f) < GrantedScore(granted, f) && !FieldEntry(p, resource, granted)
    ensures !FieldEntry(p, resource, f)
  {
    hide Trim;
  }

  // ----- The whole list -----

  lemma GrantedOnce(ps: seq<FieldPolicy>, resource: string, granted: string, r: string, f: string)
    requires resource != "*" && Trimmed(granted) && Trimmed(f)
    ensures Choice(GrantWrite(ps, resource, granted), r, f)
         == if r == resource && Covers(granted, f) then AfterGrant(Choice(ps, r, f), resource, granted, f)
             else Choice(ps, r, f)
  {
    hide BestPolicy, GrantWrite, FieldEntry, AfterGrant;
    if r == resource && Covers(granted, f) {
      OwnChoice(ps, resource, granted, f, None, -1);
    } else {
      OtherChoice(ps, resource, granted, r, f, None, -1);
    }
  }

  /** Names already granted leave their mark on the deciding entry, and granting them again changes nothing. */
  predicate Marked(best: Option<FieldPolicy>, resource: string, seen: set<string>, f: string) {
    && (f in seen ==> Exact(best, resource, f) && best.value.write)
    && ("*" in seen && !Exact(best, resource, f) ==> Exact(best, resource, "*") && best.value.write)
  }

  lemma GrantMarks(best: Option<FieldPolicy>, resource: string, seen: set<string>, granted: string, f: string)
    requires Marked(best, resource, seen, f) && Trimmed(granted) && granted !in seen
    ensures var after := if Covers(granted, f) then AfterGrant(best, resource, granted, f) else best;
            Marked(after, resource, seen + {granted}, f)
  {
    hide Trim;
  }

  lemma GrantComposes(best: Option<FieldPolicy>, resource: string, fields: seq<string>, seen: set<string>, f: string)
    requires fields != [] && Marked(best, resource, seen, f) && Trimmed(f) && f != ""
    ensures var granted, rest := Trim(fields[0]), fields[1..];
            if granted == "" || granted in seen then
              AfterWrites(rest, best, resource, f) == AfterWrites(fields, best, resource, f)
            else
              var after := if Covers(granted, f) then AfterGrant(best, resource, granted, f) else best;
              AfterWrites(rest, after, resource, f) == AfterWrites(fields, best, resource, f)
  {
    hide Trim, Requested;
    RequestedStep(fields, f);
    RequestedStep(fields, "*");
    AfterWriteExact(best, resource, f);
  }

  lemma RequestedStep(fields: seq<string>, f: string)
    requires fields != []
    ensures Requested(fields, f) <==> f != "" && (Trim(fields[0]) == f || Requested(fields[1..], f))
  {
    hide Trim;
    assert fields[0] in fields && forall raw | raw in fields[1..] :: raw in fields;
    assert forall raw | raw in fields :: raw == fields[0] || raw in fields[1..];
  }

  /** Over the whole list of granted names: the field's own name if it is listed, else `*` if that is listed and the
      field has no entry of its own, else nothing. */
  lemma {:induction false} GrantedChoice(ps: seq<FieldPolicy>, resource: string, fields: seq<string>,
                                         seen: set<string>, r: string, f: string)
    requires resource != "*" && Trimmed(f) && f != ""
    requires r == resource ==> Marked(Choice(ps, r, f), resource, seen, f)
    ensures Choice(GrantWrites(ps, resource, fields, seen), r, f)
         == if r == resource then AfterWrites(fields, Choice(ps, r, f), resource, f) else Choice(ps, r, f)
    decreases |fields|
  {
    hide Trim, BestPolicy, GrantWrite, FieldEntry, Exact, AfterGrant, AfterWrites, Marked, Requested;
    var best := Choice(ps, r, f);
    if fields == [] {
      NoneRequested(fields, best, resource, f);
    } else {
      var granted, rest := Trim(fields[0]), fields[1..];
      if r == resource {
        GrantComposes(best, resource, fields, seen, f);
      }
      if granted == "" || granted in seen {
        GrantedChoice(ps, resource, rest, seen, r, f);
      } else {
        if r == resource {
          GrantMarks(best, resource, seen, granted, f);
        }
        GrantedOnce(ps, resource, granted, r, f);
        GrantedChoice(GrantWrite(ps, resource, granted), resource, rest, seen + {granted}, r, f);
      }
    }
  }

  lemma NoneRequested(fields: seq<string>, best: Option<FieldPolicy>, resource: string, f: string)
    requires fields == []
    ensures AfterWrites(fields, best, resource, f) == best
  {
  }

  lemma AfterWriteExact(best: Option<FieldPolicy>, resource: string, field: string)
    requires Trimmed(field)
    ensures var after := AfterWrite(best, resource, field);
            Exact(after, resource, field) && after.value.write && AfterWrite(after, resource, field) == after
  {
    hide Trim;
  }

  // ----- Field decisions -----

  /** A field decision under a derived bundle: untouched for every field no granted name has effect on, and otherwise
      the decision of the entry of that name with writing, behind the guardrails as before. */
  lemma DerivedField(b: AccessBundle, g: ExecutionGrant, now: int, request: FieldRequest,
                     matches: Option<PredicateMatcher>)
    requires Derived(b, g, now).Ok? && RequestValid(request)
    ensures var field, action := Trim(request.field), NormalAction(request.action);
            var best := Choice(b.fieldPolicies, request.resource, field);
            var verdict := FieldVerdict(Derived(b, g, now).value, request, matches);
            if request.resource == g.resource
               && FieldGuardrail(b.guardrails, request.resource, field, action, matches).None? then
              verdict == PolicyDecision(AfterWrites(g.fields, best, g.resource, field), action, matches)
            else
              verdict == FieldVerdict(b, request, matches)
  {
    hide BundleCheck, GrantAdmitted, BestPolicy, GrantWrites, PolicyDecision, FieldGuardrail, ValidIdentifier, Trim,
      AfterWrites;
    DerivedTargetValid(b, g, now);
    GrantedChoice(b.fieldPolicies, g.resource, g.fields, {}, request.resource, Trim(request.field));
  }

  predicate Reads(action: string) {
    action in {"read", "list", "view", "search", "report", "audit", "export"}
  }

  /** A name granted to the request's field is in effect, and no guardrail has a say. */
  predicate WriteGranted(b: AccessBundle, g: ExecutionGrant, request: FieldRequest, matches: Option<PredicateMatcher>) {
    var field := Trim(request.field);
    && request.resource == g.resource
    && Effective(g.fields, Choice(b.fieldPolicies, g.resource, field), g.resource, field).Some?
    && FieldGuardrail(b.guardrails, g.resource, field, NormalAction(request.action), matches).None?
  }

  /** The entry of the granted name, if it has one. */
  function GrantedEntryOf(b: AccessBundle, g: ExecutionGrant, request: FieldRequest): Option<FieldPolicy> {
    var field := Trim(request.field);
    var best := Choice(b.fieldPolicies, g.resource, field);
    match Effective(g.fields, best, g.resource, field)
    case Some(name) => if Exact(best, g.resource, name) then best else None
    case None => None
  }

  /** Writing a granted field is allowed unless a guardrail or a rule of the granted name's own entry has a say. */
  lemma GrantedFieldWrites(b: AccessBundle, g: ExecutionGrant, now: int, request: FieldRequest,
                           matches: Option<PredicateMatcher>)
    requires Derived(b, g, now).Ok? && RequestValid(request) && WriteGranted(b, g, request, matches)
    requires NormalAction(request.action) in {"write", "create", "update"}
    requires GrantedEntryOf(b, g, request).Some? ==> GrantedEntryOf(b, g, request).value.rules == []
    ensures var verdict := FieldVerdict(Derived(b, g, now).value, request, matches);
            verdict.Ok? && verdict.value.effect == FieldAllow
  {
    hide Derived, BestPolicy, FieldGuardrail, Trim, NormalAction, RequestValid, FieldVerdict;
    DerivedField(b, g, now, request, matches);
    var best := Choice(b.fieldPolicies, g.resource, Trim(request.field));
    var after := AfterWrites(g.fields, best, g.resource, Trim(request.field)).value;
    assert after.rules == [] && after.write;
    NoRuleDecision(after, NormalAction(request.action), matches);
  }

  lemma NoRuleDecision(p: FieldPolicy, action: string, matches: Option<PredicateMatcher>)
    requires p.rules == []
    ensures PolicyDecision(Some(p), action, matches) == Ok(Baseline(p, action))
  {
  }

  lemma ReadingIgnoresWrite(p: FieldPolicy, action: string, matches: Option<PredicateMatcher>)
    requires Reads(action)
    ensures PolicyDecision(Some(p.(write := true)), action, matches) == PolicyDecision(Some(p), action, matches)
  {
    hide Sort, DecidingRule;
  }

  /** Reading a granted field is decided as before when the granted name has the deciding entry. When only a broader
      entry covered the field, the write-only entry the grant adds hides it from every reader, whatever the broader
      entry allowed. */
  lemma GrantedFieldReads(b: AccessBundle, g: ExecutionGrant, now: int, request: FieldRequest,
                          matches: Option<PredicateMatcher>)
    requires Derived(b, g, now).Ok? && RequestValid(request) && WriteGranted(b, g, request, matches)
    requires Reads(NormalAction(request.action))
    ensures FieldVerdict(Derived(b, g, now).value, request, matches)
         == if GrantedEntryOf(b, g, request).Some? then FieldVerdict(b, request, matches)
             else Ok(FieldDecision(FieldHide, "static_field_policy", "", None, false))
  {
    hide Derived, BestPolicy, FieldGuardrail, Trim, NormalAction, RequestValid, FieldEntry, PolicyDecision;
    DerivedField(b, g, now, request, matches);
    var field, action := Trim(request.field), NormalAction(request.action);
    var best := Choice(b.fieldPolicies, g.resource, field);
    var name := Effective(g.fields, best, g.resource, field).value;
    if Exact(best, g.resource, name) {
      ReadingIgnoresWrite(best.value, action, matches);
    } else {
      NoRuleDecision(WriteOnly(g.resource, name), action, matches);
    }
  }
}
