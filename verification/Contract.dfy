/** The entities of the access-bundle contract, as values. Identifiers are strings; the zero time is `None`. */
module Contract {
  import opened Wrappers

  const CURRENT_POLICY_BUNDLE_VERSION := "domainry-identity-access-bundle-v6"

  /** A policy value, a fact or an SQL argument. Every Go number kind is compared as a rational, so all of
      them are `Num`. `Strs` is Go's `[]string` and `List` its `[]any`, which are never equal to each other. */
  datatype Value = Null | Bool(b: bool) | Num(n: real) | Str(s: string) | Strs(ss: seq<string>) | List(vs: seq<Value>)

  datatype Operator = NoOperator | Eq | Neq | In | NotIn | Exists | Prefix | OtherOperator(name: string)

  datatype Direction = Forward | Reverse | OtherDirection(name: string)

  datatype RelationSegment = RelationSegment(direction: Direction, reference: string, targetResource: string)

  datatype Predicate = Predicate(
    fact: string, path: seq<RelationSegment>, operator: Operator, value: Value,
    all: seq<Predicate>, anyOf: seq<Predicate>, not: Option<Predicate>)

  const ZERO_PREDICATE := Predicate("", [], NoOperator, Null, [], [], None)

  datatype Effect = Allow | Deny | OtherEffect(name: string)

  datatype DataScope = ScopeAll | ScopeOwner | ScopeOrg | ScopeOrgChild | ScopeTargetOrg | OtherScope(name: string)

  datatype Subject = Subject(
    workspaceId: string, subjectId: string, orgId: string, orgScopeIds: seq<string>,
    supportOrgId: string, supportOrgScopeIds: seq<string>, reportingScopeUserIds: seq<string>)

  datatype FunctionGrant = FunctionGrant(resource: string, action: string, effect: Effect)

  datatype DataPolicy = DataPolicy(
    key: string, resource: string, action: string, effect: Effect,
    dataScopes: seq<DataScope>, condition: Predicate, auditDenial: bool)

  datatype FieldEffect = FieldAllow | FieldDeny | FieldHide | FieldMask | NoFieldEffect | OtherFieldEffect(name: string)

  datatype MaskType = MaskPhone | MaskIDNumber | MaskEmail | MaskYearOnly | MaskLastN | OtherMask(name: string)

  datatype MaskStrategy = MaskStrategy(kind: MaskType, lastN: int)

  datatype FieldRule = FieldRule(
    key: string, priority: int, actions: seq<string>, effect: FieldEffect,
    condition: Option<Predicate>, maskStrategy: Option<MaskStrategy>, auditDenial: bool)

  datatype FieldPolicy = FieldPolicy(
    resource: string, field: string, read: bool, write: bool, export_: bool, masked: bool,
    reason: string, auditDenial: bool, rules: seq<FieldRule>)

  datatype ReferencePolicy = ReferencePolicy(
    sourceResource: string, reference: string, targetResource: string,
    displayFields: seq<string>, allowed: bool, reason: string)

  datatype ExportMode = ExportDeny | ExportAllowList | OtherExportMode(name: string)

  datatype ExportPolicy = ExportPolicy(resource: string, mode: ExportMode, fields: seq<string>)

  datatype Guardrail = Guardrail(
    key: string, resource: string, action: string, field: string, effect: Effect,
    condition: Option<Predicate>, reason: string)

  datatype AccessBundle = AccessBundle(
    contractVersion: string, authorizationRevision: string, expiresAt: Option<int>, subject: Subject,
    functionGrants: seq<FunctionGrant>, dataPolicies: seq<DataPolicy>, fieldPolicies: seq<FieldPolicy>,
    referencePolicies: seq<ReferencePolicy>, exportPolicies: seq<ExportPolicy>, guardrails: seq<Guardrail>)

  datatype AccessRequest = AccessRequest(objectKey: string, action: string, fieldKey: string)

  type ResourceFacts = map<string, Value>

  /** Identity facts and the business claims resolved for one request. */
  datatype EvaluationContext = EvaluationContext(subject: Subject, claims: map<string, Value>)
}
