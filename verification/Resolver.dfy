/** Authentication through the cache: never without this call's session check, never stale beyond its bounds, and
    never different from an authentication without a cache. */
module Resolver {
  import opened Wrappers
  import opened Text
  import opened Lists
  import opened Contract
  import opened Validation
  import opened Cache

  /** Five minutes, in nanoseconds, the unit of every time here. */
  const DEFAULT_MAX_CACHE_TTL := 300_000_000_000

  const PRINCIPAL_CONTRACT_VERSION := "domainry-principal-context-v1"

  datatype VerifiedToken = VerifiedToken(workspaceId: string, subjectId: string, revision: string, tokenId: string,
      expiresAt: int)

  datatype Session = Session(
    subjectId: string, workspaceId: string, userId: string, revision: string, defaultRole: string,
        permissions: seq<string>, view: View)

  /** Everything one call of Authenticate meets outside: its token, the clock, the authority's answers. */
  datatype Call = Call(
    accessToken: string, verified: Result<VerifiedToken>, now: int, session: Result<Session>,
        bundle: Result<AccessBundle>, cancelled: bool)

  function KeyOf(t: VerifiedToken): CacheKey {
    CacheKey(t.workspaceId, t.subjectId, t.revision, t.tokenId)
  }

  // ----- The principal -----

  function PermissionText(g: FunctionGrant): string {
    g.resource + "." + g.action
  }

  function IsAllow(g: FunctionGrant): bool {
    g.effect == Allow
  }

  function Granted(grants: seq<FunctionGrant>): seq<string> {
    Map(PermissionText, Filter(IsAllow, grants))
  }

  function Denied(grants: seq<FunctionGrant>): set<string> {
    set g | g in grants && g.effect == Deny :: Lower(PermissionText(g))
  }

  function DeniedPermissions(b: AccessBundle): set<string> {
    Denied(b.functionGrants)
  }

  function NotDenied(denied: set<string>): string -> bool {
    v => Lower(Trim(v)) !in denied
  }

  function NotEmpty(v: string): bool {
    v != ""
  }

  /** `withoutDeniedPermissions`, then `uniqueSortedStrings`, on the session's permissions and the allowing grants. */
  function Permissions(session: Session, b: AccessBundle): seq<string> {
    var open := Filter(NotDenied(DeniedPermissions(b)), session.permissions + Granted(b.functionGrants));
    Sort(StringLeq, Unique(Filter(NotEmpty, Map(Trim, open))))
  }

  lemma GrantedSnoc(grants: seq<FunctionGrant>, g: FunctionGrant)
    ensures Granted(grants + [g]) == Granted(grants) + if g.effect == Allow then [PermissionText(g)] else []
  {
    hide PermissionText, Filter, Map;
    FilterSnoc(IsAllow, grants, g);
    MapSnoc(PermissionText, Filter(IsAllow, grants), g);
  }

  lemma DeniedSnoc(grants: seq<FunctionGrant>, g: FunctionGrant)
    ensures Denied(grants + [g]) == Denied(grants) + if g.effect == Deny then {Lower(PermissionText(g))} else {}
  {
    hide Lower, PermissionText;
    assert g in grants + [g] && forall x | x in grants :: x in grants + [g];
  }

  lemma NothingGranted()
    ensures Granted([]) == [] && Denied([]) == {}
  {
  }

  /** The grant loop of `principalFromResolution`. */
  method CollectGrants(session: Session, grants: seq<FunctionGrant>)
    returns (permissions: seq<string>, denied: set<string>)
    ensures permissions == session.permissions + Granted(grants) && denied == Denied(grants)
  {
    hide Lower, PermissionText, Granted, Denied;
    permissions, denied := session.permissions, {};
    NothingGranted();
    assert grants[..0] == [] && session.permissions + [] == session.permissions;
    for i := 0 to |grants|
      invariant permissions == session.permissions + Granted(grants[..i]) && denied == Denied(grants[..i])
    {
      var g := grants[i];
      assert grants[..i + 1] == grants[..i] + [g];
      GrantedSnoc(grants[..i], g);
      DeniedSnoc(grants[..i], g);
      if g.effect == Deny {
        denied := denied + {Lower(PermissionText(g))};
        continue;
      }
      if g.effect == Allow {
        permissions := permissions + [PermissionText(g)];
      }
    }
    assert grants[..|grants|] == grants;
  }

  /** `withoutDeniedPermissions`. */
  method WithoutDenied(values: seq<string>, denied: set<string>) returns (open: seq<string>)
    ensures open == Filter(NotDenied(denied), values)
  {
    hide Lower, Trim;
    open := [];
    for i := 0 to |values|
      invariant open == Filter(NotDenied(denied), values[..i])
    {
      assert values[..i + 1] == values[..i] + [values[i]];
      FilterSnoc(NotDenied(denied), values[..i], values[i]);
      if Lower(Trim(values[i])) !in denied {
        open := open + [values[i]];
      }
    }
    assert values[..|values|] == values;
  }

  lemma NamedSnoc(values: seq<string>, v: string)
    ensures var before := Unique(Filter(NotEmpty, Map(Trim, values)));
            Unique(Filter(NotEmpty, Map(Trim, values + [v])))
            == if Trim(v) == "" || Trim(v) in before then before else before + [Trim(v)]
  {
    hide Trim;
    MapSnoc(Trim, values, v);
    FilterSnoc(NotEmpty, Map(Trim, values), Trim(v));
    UniqueSnoc(Filter(NotEmpty, Map(Trim, values)), Trim(v));
  }

  /** `uniqueSortedStrings`. */
  method UniqueSorted(values: seq<string>) returns (r: seq<string>)
    ensures r == Sort(StringLeq, Unique(Filter(NotEmpty, Map(Trim, values))))
  {
    hide Trim, Sort;
    r := [];
    var seen: set<string> := {};
    assert Unique(Filter(NotEmpty, Map(Trim, values[..0]))) == [];
    hide Unique, Filter, Map;
    for i := 0 to |values|
      invariant r == Unique(Filter(NotEmpty, Map(Trim, values[..i])))
      invariant forall v :: v in seen <==> v in r
    {
      assert values[..i + 1] == values[..i] + [values[i]];
      NamedSnoc(values[..i], values[i]);
      var value := Trim(values[i]);
      if value == "" || value in seen {
        continue;
      }
      seen := seen + {value};
      r := r + [value];
    }
    assert values[..|values|] == values;
    r := Sort(StringLeq, r);
  }

  /** `principalFromResolution`. */
  function PrincipalOf(t: VerifiedToken, session: Session, b: AccessBundle): Principal {
    var role := Trim(session.defaultRole);
    Principal(PRINCIPAL_CONTRACT_VERSION, true, t.workspaceId, t.subjectId,
              if role == "" && session.view.roles != [] then session.view.roles[0] else role, t.revision,
              b.subject.orgId, b.subject.orgScopeIds, b.subject.supportOrgId, b.subject.supportOrgScopeIds,
                  b.subject.reportingScopeUserIds,
              session.view, Permissions(session, b), Some(b))
  }

  method BuildPrincipal(t: VerifiedToken, session: Session, b: AccessBundle) returns (p: Principal)
    ensures p == PrincipalOf(t, session, b)
  {
    hide Trim, Sort, Unique, Filter, Map, Granted, Denied;
    var role := Trim(session.defaultRole);
    if role == "" && |session.view.roles| > 0 {
      role := session.view.roles[0];
    }
    var permissions, denied := CollectGrants(session, b.functionGrants);
    permissions := WithoutDenied(permissions, denied);
    permissions := UniqueSorted(permissions);
    p := Principal(PRINCIPAL_CONTRACT_VERSION, true, t.workspaceId, t.subjectId, role, t.revision,
                   b.subject.orgId, b.subject.orgScopeIds, b.subject.supportOrgId, b.subject.supportOrgScopeIds,
                   b.subject.reportingScopeUserIds, session.view, permissions, Some(b));
  }

  /** A text is granted by the session's permissions or by an allowing grant of the bundle. */
  predicate Offered(session: Session, b: AccessBundle, v: string) {
    || (exists p | p in session.permissions :: Trim(p) == v)
    || (exists g | g in b.functionGrants :: g.effect == Allow && Trim(PermissionText(g)) == v)
  }

  lemma OfferedMembers(session: Session, b: AccessBundle, v: string)
    ensures var all := session.permissions + Granted(b.functionGrants);
            (exists x | x in all :: Trim(x) == v) <==> Offered(session, b, v)
  {
    hide Trim, Map, Filter, PermissionText;
    var granted := Granted(b.functionGrants);
    MapMembers(PermissionText, Filter(IsAllow, b.functionGrants));
    assert forall x :: x in session.permissions + granted <==> x in session.permissions || x in granted;
  }

  lemma OpenMembers(all: seq<string>, denied: set<string>, v: string)
    ensures v in Filter(NotEmpty, Map(Trim, Filter(NotDenied(denied), all)))
            <==> v != "" && Lower(v) !in denied && exists x | x in all :: Trim(x) == v
  {
    hide Trim, Lower, Map, Filter;
    MapMembers(Trim, Filter(NotDenied(denied), all));
  }

  /** The presented permissions are exactly the offered ones the bundle does not deny in any spelling, each once, in
      order. */
  lemma PresentedPermissions(session: Session, b: AccessBundle)
    ensures forall v :: v in Permissions(session, b) <==>
              v != "" && Offered(session, b, v) && Lower(v) !in DeniedPermissions(b)
    ensures NoDuplicates(Permissions(session, b)) && Sorted(StringLeq, Permissions(session, b))
  {
    hide Trim, Lower, Sort, StringLeq, Map, Filter, Unique, Offered, NoDuplicates, Sorted, DeniedPermissions;
    var all := session.permissions + Granted(b.functionGrants);
    var named := Filter(NotEmpty, Map(Trim, Filter(NotDenied(DeniedPermissions(b)), all)));
    SameMembers(Sort(StringLeq, Unique(named)), Unique(named));
    NoDuplicatesPermuted(Unique(named), Sort(StringLeq, Unique(named)));
    StringOrder();
    SortSorted(StringLeq, Unique(named));
    forall v
      ensures v in Permissions(session, b) <==> v != "" && Offered(session, b, v) && Lower(v) !in DeniedPermissions(b)
    {
      OpenMembers(all, DeniedPermissions(b), v);
      OfferedMembers(session, b, v);
    }
  }

  // ----- One call -----

  /** The session belongs to the verified token, as far as it says anything. */
  function SessionCheck(s: Session, t: VerifiedToken): Check {
    if (s.subjectId != "" && s.subjectId != t.subjectId) || (s.workspaceId != "" && s.workspaceId != t.workspaceId)
       || (!Blank(s.userId) && s.userId != t.subjectId) then
      Fail("identity.session_subject_mismatch")
    else
      Require(!(s.revision != "" && s.revision != t.revision), "identity.authorization_revision_stale")
  }

  predicate BundleOf(b: AccessBundle, t: VerifiedToken) {
    b.subject.subjectId == t.subjectId && b.subject.workspaceId == t.workspaceId
        && b.authorizationRevision == t.revision
  }

  /** `cachedPrincipalValid`. */
  predicate CachedValid(e: Entry, t: VerifiedToken, now: int) {
    var p := e.principal;
    && !Expired(e, now) && p.known && p.contractVersion == PRINCIPAL_CONTRACT_VERSION
    && p.workspaceId == t.workspaceId && p.userId == t.subjectId && p.revision == t.revision
    && p.accessBundle.Some? && BundleCheck(p.accessBundle.value, now).Pass? && BundleOf(p.accessBundle.value, t)
  }

  function Earlier(a: int, b: int): int {
    if b < a then b else a
  }

  /** One resolution at the authority: what it was asked for, and when. */
  datatype Fetch = Fetch(token: VerifiedToken, session: Session, bundle: AccessBundle, now: int)

  function EntryOf(f: Fetch, maxTTL: int): Entry
    requires f.bundle.expiresAt.Some?
  {
    Entry(PrincipalOf(f.token, f.session, f.bundle),
        Earlier(Earlier(f.now + maxTTL, f.token.expiresAt), f.bundle.expiresAt.value))
  }

  /** The answer of the authority for a call whose session is in order. */
  function Fetched(c: Call, t: VerifiedToken, s: Session): (r: Result<Fetch>)
    ensures r.Ok? ==> r.value.bundle.expiresAt.Some?
  {
    if c.bundle.Err? then Err(c.bundle.code)
    else
      match BundleCheck(c.bundle.value, c.now)
      case Fail(code) => Err(code)
      case Pass =>
        if BundleOf(c.bundle.value, t) then Ok(Fetch(t, s, c.bundle.value, c.now))
        else Err("identity.access_bundle_subject_mismatch")
  }

  /** The session's answer: the token is verified, and its account still has a session that fits it. */
  function SessionOf(c: Call, t: VerifiedToken): Check {
    if c.session.Err? then Fail(c.session.code) else SessionCheck(c.session.value, t)
  }

  function Cached(m: Entries, c: Call, t: VerifiedToken): Option<Entry> {
    if c.cancelled then None else Found(m, KeyOf(t), c.now)
  }

  /** What reading the cache does to it; an unusable snapshot is deleted. */
  function ReadSections(m: Entries, c: Call, t: VerifiedToken): seq<Section> {
    if c.cancelled then []
    else
      var read := [EvictSection(KeyOf(t), c.now)];
      if Cached(m, c, t).Some? && !CachedValid(Cached(m, c, t).value, t, c.now) then
          read + [DeleteSection(KeyOf(t))] else read
  }

  function Recalled(m: Entries, c: Call, t: VerifiedToken): Option<Principal> {
    if Cached(m, c, t).Some? && CachedValid(Cached(m, c, t).value, t, c.now) then
        Some(Cached(m, c, t).value.principal) else None
  }

  function WriteSections(c: Call, t: VerifiedToken, s: Session, maxTTL: int): seq<Section> {
    var f := Fetched(c, t, s);
    if f.Ok? && !c.cancelled then [SetSection(KeyOf(t), EntryOf(f.value, maxTTL), c.now)] else []
  }

  function Resolved(c: Call, t: VerifiedToken, s: Session): Result<Principal> {
    match Fetched(c, t, s)
    case Err(code) => Err(code)
    case Ok(f) => Ok(PrincipalOf(f.token, f.session, f.bundle))
  }

  /** The answer of a call, and the sections it performs on the cache. */
  datatype Reply = Reply(result: Result<Principal>, sections: seq<Section>)

  /** What `Authenticate` answers when its Get finds the contents `m`, and what it then does to the cache. */
  function Authenticated(m: Entries, c: Call, maxTTL: int): Reply {
    if Blank(c.accessToken) then Reply(Err("auth.token_required"), [])
    else if c.verified.Err? then Reply(Err(c.verified.code), [])
    else
      var t := c.verified.value;
      match SessionOf(c, t)
      case Fail(code) => Reply(Err(code), [InvalidateSection(t.subjectId, t.workspaceId)])
      case Pass =>
        match Recalled(m, c, t)
        case Some(p) => Reply(Ok(p), ReadSections(m, c, t))
        case None => Reply(Resolved(c, t, c.session.value),
            ReadSections(m, c, t) + WriteSections(c, t, c.session.value, maxTTL))
  }

  /** The same call with no cache at all. */
  function Cacheless(c: Call): Result<Principal> {
    if Blank(c.accessToken) then Err("auth.token_required")
    else if c.verified.Err? then Err(c.verified.code)
    else
      match SessionOf(c, c.verified.value)
      case Fail(code) => Err(code)
      case Pass => Resolved(c, c.verified.value, c.session.value)
  }

  lemma {:induction false} PerformAppended(m: Entries, a: seq<Section>, b: seq<Section>)
    ensures PerformAll(m, a + b) == PerformAll(PerformAll(m, a), b)
  {
    if b == [] {
      assert a + b == a;
    } else {
      var ab := a + b;
      assert ab[..|ab| - 1] == a + b[..|b| - 1] && ab[|ab| - 1] == b[|b| - 1];
      PerformAppended(m, a, b[..|b| - 1]);
    }
  }

  lemma PerformOne(m: Entries, s: Section)
    ensures PerformAll(m, [s]) == Perform(m, s)
  {
    assert [s][..0] == [];
  }

  lemma ValidBundleExpires(b: AccessBundle, now: int)
    requires BundleCheck(b, now).Pass?
    ensures b.expiresAt.Some? && now < b.expiresAt.value
  {
  }

  /** `Resolver`, over the process-local cache. */
  class PrincipalResolver {
    const maxTTL: int
    const cache: MemoryCache

    /** `NewResolver`: an absent or negative time to live becomes the default one. */
    constructor (maxTTL: int, cache: MemoryCache)
      ensures this.cache == cache && this.maxTTL > 0
      ensures this.maxTTL == if maxTTL <= 0 then DEFAULT_MAX_CACHE_TTL else maxTTL
    {
      this.maxTTL := if maxTTL <= 0 then DEFAULT_MAX_CACHE_TTL else maxTTL;
      this.cache := cache;
    }

    /** The cache-reading part of `Authenticate`. */
    method Recall(c: Call, t: VerifiedToken) returns (found: Option<Principal>)
      modifies cache
      ensures found == Recalled(old(cache.entries), c, t)
      ensures cache.entries == PerformAll(old(cache.entries), ReadSections(old(cache.entries), c, t))
    {
      hide CachedValid;
      ghost var m := cache.entries;
      var cached := cache.Get(c.cancelled, KeyOf(t), c.now);
      PerformOne(m, EvictSection(KeyOf(t), c.now));
      if cached.Ok? && cached.value.Some? {
        if CachedValid(cached.value.value, t, c.now) {
          return Some(cached.value.value.principal);
        }
        PerformAppended(m, [EvictSection(KeyOf(t), c.now)], [DeleteSection(KeyOf(t))]);
        PerformOne(cache.entries, DeleteSection(KeyOf(t)));
        var _ := cache.Delete(c.cancelled, KeyOf(t));
      }
      return None;
    }

    /** The resolving and storing part of `Authenticate`. */
    method Resolve(c: Call, t: VerifiedToken, session: Session) returns (result: Result<Principal>)
      modifies cache
      ensures result == Resolved(c, t, session)
      ensures cache.entries == PerformAll(old(cache.entries), WriteSections(c, t, session, maxTTL))
    {
      hide BundleCheck, PrincipalOf;
      if c.bundle.Err? { return Err(c.bundle.code); }
      var bundle := c.bundle.value;
      var valid := Validate(bundle, c.now);
      if valid.Fail? { return Err(valid.code); }
      if bundle.subject.subjectId != t.subjectId || bundle.subject.workspaceId != t.workspaceId
         || bundle.authorizationRevision != t.revision {
        return Err("identity.access_bundle_subject_mismatch");
      }
      var resolved := BuildPrincipal(t, session, bundle);
      var expiresAt := c.now + maxTTL;
      if t.expiresAt < expiresAt {
        expiresAt := t.expiresAt;
      }
      ValidBundleExpires(bundle, c.now);
      if bundle.expiresAt.value < expiresAt {
        expiresAt := bundle.expiresAt.value;
      }
      PerformOne(cache.entries, SetSection(KeyOf(t), Entry(resolved, expiresAt), c.now));
      var _ := cache.Set(c.cancelled, KeyOf(t), Entry(resolved, expiresAt), c.now);
      return Ok(resolved);
    }

    /** `Authenticate`. */
    method Authenticate(c: Call) returns (result: Result<Principal>)
      modifies cache
      ensures var reply := Authenticated(old(cache.entries), c, maxTTL);
              result == reply.result && cache.entries == PerformAll(old(cache.entries), reply.sections)
    {
      hide SessionCheck, Recalled, Resolved, ReadSections, WriteSections;
      if Trim(c.accessToken) == "" { return Err("auth.token_required"); }
      if c.verified.Err? { return Err(c.verified.code); }
      var verified := c.verified.value;
      PerformOne(cache.entries, InvalidateSection(verified.subjectId, verified.workspaceId));
      if c.session.Err? {
        var _ := cache.Invalidate(false, verified.subjectId, verified.workspaceId);
        return Err(c.session.code);
      }
      var fits := SessionCheck(c.session.value, verified);
      if fits.Fail? {
        var _ := cache.Invalidate(false, verified.subjectId, verified.workspaceId);
        return Err(fits.code);
      }
      ghost var m := cache.entries;
      PerformAppended(m, ReadSections(m, c, verified), WriteSections(c, verified, c.session.value, maxTTL));
      var found := Recall(c, verified);
      if found.Some? { return Ok(found.value); }
      result := Resolve(c, verified, c.session.value);
    }
  }

  // ----- Any cache -----

  /** Whatever a cache returns, a principal comes out only for a token that verified and a session that fits it in this
      very call, and it is the token's: its workspace, subject and revision, with a bundle of its own that is valid
      now. */
  lemma AuthenticatedPrincipal(m: Entries, c: Call, maxTTL: int)
    requires Authenticated(m, c, maxTTL).result.Ok?
    ensures !Blank(c.accessToken) && c.verified.Ok? && SessionOf(c, c.verified.value).Pass?
    ensures var p, t := Authenticated(m, c, maxTTL).result.value, c.verified.value;
            && p.known && p.contractVersion == PRINCIPAL_CONTRACT_VERSION
            && p.workspaceId == t.workspaceId && p.userId == t.subjectId && p.revision == t.revision
            && p.accessBundle.Some? && BundleCheck(p.accessBundle.value, c.now).Pass?
                && BundleOf(p.accessBundle.value, t)
  {
    hide BundleCheck, SessionOf, Blank, Permissions;
  }

  /** A refused session touches no other subject's entries, and makes itself felt in every later call of its own subject
      and workspace: until the key of such a call is stored anew, whatever else runs meanwhile, the call is answered as
      if there were no cache. */
  lemma RefusalLasts(m: Entries, refused: Call, maxTTL: int, run: seq<Section>, call: Call)
    requires !Blank(refused.accessToken) && refused.verified.Ok? && SessionOf(refused, refused.verified.value).Fail?
    requires call.verified.Ok? && call.verified.value.subjectId == refused.verified.value.subjectId
    requires call.verified.value.workspaceId == refused.verified.value.workspaceId
    requires forall s | s in run && s.SetSection? :: s.key != KeyOf(call.verified.value)
    ensures var t, purged := refused.verified.value, PerformAll(m, Authenticated(m, refused, maxTTL).sections);
            && (forall k | k in m && !(k.subjectId == t.subjectId && k.workspaceId == t.workspaceId) ::
                  k in purged && purged[k] == m[k])
            && Authenticated(PerformAll(purged, run), call, maxTTL).result == Cacheless(call)
  {
    hide SessionOf, Blank, Resolved;
    var k := KeyOf(call.verified.value);
    var purged := PerformAll(m, Authenticated(m, refused, maxTTL).sections);
    PerformOne(m, InvalidateSection(refused.verified.value.subjectId, refused.verified.value.workspaceId));
    assert k !in purged;
    hide PerformAll, Belongs;
    AbsentUntilSet(purged, run, k);
  }

  // ----- Any run of calls -----

  /** The resolution a call makes when it goes to the authority and everything is in order. */
  function Made(c: Call): (f: Option<Fetch>)
    ensures f.Some? ==>
              && f.value.bundle.expiresAt.Some? && c.verified.Ok?
              && f.value.token == c.verified.value && f.value.now == c.now
  {
    if Blank(c.accessToken) || c.verified.Err? || SessionOf(c, c.verified.value).Fail? then None
    else
      match Fetched(c, c.verified.value, c.session.value)
      case Err(_) => None
      case Ok(f) => Some(f)
  }

  /** A run of critical sections, interleaved anyhow: every entry it stores is stored by one of the calls, whatever that
      call's own Get had seen. Evictions, deletions and invalidations may come from anywhere. */
  ghost predicate RunOf(run: seq<Section>, calls: set<Call>, maxTTL: int) {
    forall s | s in run && s.SetSection? :: exists c, seen | c in calls :: s in Authenticated(seen, c, maxTTL).sections
  }

  lemma StoredByCall(seen: Entries, c: Call, maxTTL: int, s: Section)
    requires s.SetSection? && s in Authenticated(seen, c, maxTTL).sections
    ensures Made(c).Some? && s == SetSection(KeyOf(Made(c).value.token), EntryOf(Made(c).value, maxTTL), c.now)
  {
    hide CachedValid, EntryOf, SessionCheck, Blank, Resolved, Recalled, Fetched;
    var t := c.verified.value;
    assert s !in ReadSections(seen, c, t);
    assert s in WriteSections(c, t, c.session.value, maxTTL);
  }

  /** Every entry of the cache is a resolution that one of the calls made, under the key of that call's token. */
  lemma Provenance(run: seq<Section>, calls: set<Call>, maxTTL: int, k: CacheKey)
    requires RunOf(run, calls, maxTTL) && k in PerformAll(map[], run)
    ensures exists c | c in calls :: Made(c).Some? && k == KeyOf(Made(c).value.token)
              && PerformAll(map[], run)[k] == EntryOf(Made(c).value, maxTTL)
  {
    hide Authenticated, Made, EntryOf, PerformAll;
    EntriesOriginate(map[], run, k);
    var s :| s in run && s.SetSection? && s.key == k && s.entry == PerformAll(map[], run)[k];
    var c, seen :| c in calls && s in Authenticated(seen, c, maxTTL).sections;
    StoredByCall(seen, c, maxTTL, s);
  }

  /** Bounded staleness: an answer is either the authority's of this very moment, or one an earlier call of the same key
      resolved, still within the cache's time to live of that call, that call's token and that call's bundle. */
  lemma BoundedStaleness(run: seq<Section>, calls: set<Call>, maxTTL: int, call: Call)
    requires RunOf(run, calls, maxTTL)
    ensures var r := Authenticated(PerformAll(map[], run), call, maxTTL).result;
            r.Ok? && r != Cacheless(call) ==>
              exists c | c in calls ::
                && Made(c).Some? && var f := Made(c).value;
                && r.value == PrincipalOf(f.token, f.session, f.bundle) && KeyOf(f.token) == KeyOf(call.verified.value)
                && call.now < f.now + maxTTL && call.now < f.token.expiresAt && call.now < f.bundle.expiresAt.value
  {
    hide Made, PerformAll, BundleCheck, SessionOf, Blank, Resolved, PrincipalOf;
    var m := PerformAll(map[], run);
    var r := Authenticated(m, call, maxTTL).result;
    if r.Ok? && r != Cacheless(call) {
      var t := call.verified.value;
      Provenance(run, calls, maxTTL, KeyOf(t));
      var c :| c in calls && Made(c).Some? && KeyOf(t) == KeyOf(Made(c).value.token)
          && m[KeyOf(t)] == EntryOf(Made(c).value, maxTTL);
      assert r.value == m[KeyOf(t)].principal;
    }
  }

  /** The authority answers by the key alone: the session and the bundle of a call are functions of it. */
  ghost predicate Answers(sessions: CacheKey -> Result<Session>, bundles: CacheKey -> Result<AccessBundle>, c: Call) {
    c.verified.Ok? ==> c.session == sessions(KeyOf(c.verified.value)) && c.bundle == bundles(KeyOf(c.verified.value))
  }

  /** Transparency: over an authority that answers by the key, no run of calls can make the cache change an answer. */
  lemma Transparent(run: seq<Section>, calls: set<Call>, maxTTL: int, call: Call,
                    sessions: CacheKey -> Result<Session>, bundles: CacheKey -> Result<AccessBundle>)
    requires RunOf(run, calls, maxTTL)
    requires Answers(sessions, bundles, call) && forall c | c in calls :: Answers(sessions, bundles, c)
    ensures Authenticated(PerformAll(map[], run), call, maxTTL).result == Cacheless(call)
  {
    hide PerformAll, BundleCheck, SessionCheck, Blank, Permissions;
    var m := PerformAll(map[], run);
    if call.verified.Ok? && SessionOf(call, call.verified.value).Pass? && Recalled(m, call, call.verified.value).Some? {
      var t := call.verified.value;
      Provenance(run, calls, maxTTL, KeyOf(t));
      var c :| c in calls && Made(c).Some? && KeyOf(t) == KeyOf(Made(c).value.token)
          && m[KeyOf(t)] == EntryOf(Made(c).value, maxTTL);
      var f := Made(c).value;
      assert f.bundle == call.bundle.value && f.session == call.session.value;
      assert Recalled(m, call, t).value == PrincipalOf(t, f.session, f.bundle);
    }
  }
}
