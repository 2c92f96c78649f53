/** Resolution of the `$subject.` and `$context.` references a policy value may hold. */
module Context {
  import opened Wrappers
  import opened Text
  import opened Lists
  import opened Contract

  /** `Missing` is the source's `missingBusinessClaim`: the value resolves, to nothing. */
  datatype Resolution = Missing | Present(value: Value)

  /** `resolveIdentitySubjectValue` on a text that starts with `$subject.`. */
  function SubjectClaim(text: string, subject: Subject): Value
    requires "$subject." <= text
  {
    match text[9..]
    case "id" => Str(subject.subjectId)
    case "workspace_id" => Str(subject.workspaceId)
    case "org_id" => Str(subject.orgId)
    case "org_scope_ids" => Strs(subject.orgScopeIds)
    case "support_org_id" => Str(subject.supportOrgId)
    case "support_org_scope_ids" => Strs(subject.supportOrgScopeIds)
    case "reporting_scope_user_ids" => Strs(subject.reportingScopeUserIds)
    case _ => Str(text)
  }

  /** `ResolveValue`. A claim whose value is the reference text itself counts as unknown. */
  function ResolveValue(value: Value, context: EvaluationContext): Result<Resolution> {
    if !value.Str? then
      Ok(Present(value))
    else if "$subject." <= value.s then
      var resolved := SubjectClaim(value.s, context.subject);
      if resolved == value then Err("identity.policy_subject_claim_unknown") else Ok(Present(resolved))
    else if !("$context." <= value.s) then
      Ok(Present(value))
    else
      var key := value.s[9..];
      var key := if "claims." <= key then key[7..] else key;
      if Blank(key) then Err("identity.policy_business_claim_unknown")
      else if key !in context.claims || context.claims[key] == Null then Ok(Missing)
      else Ok(Present(context.claims[key]))
  }

  function TextValue(s: string): Value {
    Str(s)
  }

  /** The elements of a list value, in order; the one reading of lists both interpreters share. */
  function Elements(value: Value): Option<seq<Value>> {
    match value
    case Strs(ss) => Some(Map(TextValue, ss))
    case List(vs) => Some(vs)
    case _ => None
  }
}
