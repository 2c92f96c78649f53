/** Authentication said in the terms of the token, the session and the bundle: who is let in, with what, and how long
    the answer is remembered. */
module ResolverLaws {
  import opened Wrappers
  import opened Text
  import opened Contract
  import opened Validation
  import opened Cache
  import opened Resolver

  /** The session, as far as it names anyone, names the subject of the token in its workspace. */
  predicate SameAccount(s: Session, t: VerifiedToken) {
    && s.subjectId in {"", t.subjectId} && s.workspaceId in {"", t.workspaceId}
    && (Trim(s.userId) == "" || s.userId == t.subjectId)
  }

  predicate Current(s: Session, t: VerifiedToken) {
    s.revision in {"", t.revision}
  }

  /** Why a call is refused before any principal is looked for; nothing once the account's session is in order. */
  function Refusal(c: Call): Option<string> {
    if Trim(c.accessToken) == "" then Some("auth.token_required")
    else if c.verified.Err? then Some(c.verified.code)
    else if c.session.Err? then Some(c.session.code)
    else if !SameAccount(c.session.value, c.verified.value) then Some("identity.session_subject_mismatch")
    else if !Current(c.session.value, c.verified.value) then Some("identity.authorization_revision_stale")
    else None
  }

  /** Whatever the cache holds, a call is refused for its token or its session with the first reason that applies; and
      when it is the session, with everything cached about the token's subject in its workspace invalidated. */
  lemma RefusedAlways(m: Entries, c: Call, maxTTL: int)
    requires Refusal(c).Some?
    ensures Authenticated(m, c, maxTTL)
              == Reply(Err(Refusal(c).value),
                     if Trim(c.accessToken) == "" || c.verified.Err? then []
                     else [InvalidateSection(c.verified.value.subjectId, c.verified.value.workspaceId)])
  {
    hide Trim;
  }

  /** A principal comes out only when the access token is there and verified, the session of this very call is there,
      belongs to the token's subject in its workspace, and is of its revision. */
  lemma SessionRequired(m: Entries, c: Call, maxTTL: int)
    requires Authenticated(m, c, maxTTL).result.Ok?
    ensures Trim(c.accessToken) != "" && c.verified.Ok? && c.session.Ok?
    ensures SameAccount(c.session.value, c.verified.value) && Current(c.session.value, c.verified.value)
  {
    hide Trim;
    if Refusal(c).Some? {
      RefusedAlways(m, c, maxTTL);
    }
  }

  /** The bundle the authority answers with is the token's. */
  predicate BundleFits(b: AccessBundle, t: VerifiedToken) {
    && b.subject.subjectId == t.subjectId && b.subject.workspaceId == t.workspaceId
    && b.authorizationRevision == t.revision
  }

  /** Without a usable snapshot the authority decides: its error, an unacceptable bundle, one of somebody else, or the
      principal of token, session and bundle. */
  lemma AuthorityDecides(c: Call)
    requires Refusal(c).None?
    ensures Cacheless(c) ==
              match c.bundle
              case Err(code) => Err(code)
              case Ok(b) =>
                match BundleCheck(b, c.now)
                case Fail(code) => Err(code)
                case Pass =>
                  if BundleFits(b, c.verified.value) then Ok(PrincipalOf(c.verified.value, c.session.value, b))
                  else Err("identity.access_bundle_subject_mismatch")
  {
    hide Trim, BundleCheck, PrincipalOf;
  }

  /** What the presented principal says: who and where of the token, organisation of the bundle, view of the session,
      and the default role, or the first one shown when there is none. */
  lemma PrincipalSays(t: VerifiedToken, s: Session, b: AccessBundle)
    ensures var p := PrincipalOf(t, s, b);
            && p.known && p.contractVersion == "domainry-principal-context-v1"
            && p.workspaceId == t.workspaceId && p.userId == t.subjectId && p.revision == t.revision
            && p.orgId == b.subject.orgId && p.orgScopeIds == b.subject.orgScopeIds
            && p.supportOrgId == b.subject.supportOrgId && p.supportOrgScopeIds == b.subject.supportOrgScopeIds
            && p.reportingScopeUserIds == b.subject.reportingScopeUserIds
            && p.view == s.view && p.accessBundle == Some(b)
            && (Trim(s.defaultRole) != "" ==> p.roleKey == Trim(s.defaultRole))
            && (Trim(s.defaultRole) == "" ==> p.roleKey == if s.view.roles == [] then "" else s.view.roles[0])
  {
    hide Trim, Permissions;
  }

  /** A permission is presented exactly when the session or an allowing grant offers it and no denying grant spells it,
      in any letter case. */
  lemma PermissionsSay(t: VerifiedToken, s: Session, b: AccessBundle, v: string)
    ensures v in PrincipalOf(t, s, b).permissions <==>
              && v != ""
              && ((exists p | p in s.permissions :: Trim(p) == v)
                  || exists g | g in b.functionGrants :: g.effect == Allow && Trim(g.resource + "." + g.action) == v)
              && forall g | g in b.functionGrants && g.effect == Deny :: Lower(g.resource + "." + g.action) != Lower(v)
  {
    hide Trim, Lower, Permissions;
    PresentedPermissions(s, b);
  }

  // ----- How long an answer is remembered -----

  /** The call reads and writes the cache, and nothing is wrong with it. */
  predicate Answered(c: Call) {
    Refusal(c).None? && !c.cancelled && c.bundle.Ok? && BundleCheck(c.bundle.value, c.now).Pass?
    && BundleFits(c.bundle.value, c.verified.value)
  }

  /** A clock reading at which the answer of a call is still remembered. */
  predicate StillKnown(c: Call, maxTTL: int, now: int)
    requires Answered(c)
  {
    now < c.now + maxTTL && now < c.verified.value.expiresAt
    && c.bundle.value.expiresAt.Some? && now < c.bundle.value.expiresAt.value
  }

  /** A valid bundle stays valid until it expires. */
  lemma ValidUntilExpiry(b: AccessBundle, now: int, later: int)
    requires BundleCheck(b, now).Pass? && b.expiresAt.Some? && later < b.expiresAt.value
    ensures BundleCheck(b, later).Pass?
  {
    hide FirstError, FirstErrorOfTwo;
    HeaderLater(b, now, later);
    hide HeaderCheck;
  }

  lemma HeaderLater(b: AccessBundle, now: int, later: int)
    requires HeaderCheck(b, now).Pass? && b.expiresAt.Some? && later < b.expiresAt.value
    ensures HeaderCheck(b, later).Pass?
  {
  }

  function Snapshot(c: Call, maxTTL: int): Entry
    requires Answered(c)
  {
    ValidBundleExpires(c.bundle.value, c.now);
    Entry(PrincipalOf(c.verified.value, c.session.value, c.bundle.value),
        Earlier(Earlier(c.now + maxTTL, c.verified.value.expiresAt), c.bundle.value.expiresAt.value))
  }

  /** What the cache holds under the token's key once a call has gone to the authority. */
  lemma Remembered(m: Entries, c: Call, maxTTL: int)
    requires Answered(c) && Recalled(m, c, c.verified.value).None?
    ensures var after := PerformAll(m, Authenticated(m, c, maxTTL).sections);
            var k, e := KeyOf(c.verified.value), Snapshot(c, maxTTL);
            k in after <==> c.now < e.expiresAt
    ensures var after := PerformAll(m, Authenticated(m, c, maxTTL).sections);
            var k, e := KeyOf(c.verified.value), Snapshot(c, maxTTL);
            k in after ==> after[k] == e
  {
    hide Trim, PrincipalOf, BundleCheck, CachedValid;
    var t, e := c.verified.value, Snapshot(c, maxTTL);
    var first := ReadSections(m, c, t);
    PerformAppended(m, first, [SetSection(KeyOf(t), e, c.now)]);
    PerformOne(PerformAll(m, first), SetSection(KeyOf(t), e, c.now));
    hide ReadSections, PerformAll, Recalled;
    assert Authenticated(m, c, maxTTL).sections == first + [SetSection(KeyOf(t), e, c.now)];
  }

  /** Right after a call went to the authority, a call with the same token is answered by it without asking again, for
      exactly as long as the cache's time to live, the token and the bundle all last; after that the authority decides
      anew. */
  lemma RememberedExactly(m: Entries, c: Call, maxTTL: int, again: Call)
    requires Answered(c) && Recalled(m, c, c.verified.value).None?
    requires Refusal(again).None? && !again.cancelled && again.verified == c.verified
    ensures var after := PerformAll(m, Authenticated(m, c, maxTTL).sections);
            Authenticated(after, again, maxTTL).result
              == if StillKnown(c, maxTTL, c.now) && StillKnown(c, maxTTL, again.now) then
                   Ok(PrincipalOf(c.verified.value, c.session.value, c.bundle.value))
                 else Cacheless(again)
  {
    var after := PerformAll(m, Authenticated(m, c, maxTTL).sections);
    var k := KeyOf(c.verified.value);
    Remembered(m, c, maxTTL);
    ValidBundleExpires(c.bundle.value, c.now);
    if k in after {
      if StillKnown(c, maxTTL, again.now) {
        ValidUntilExpiry(c.bundle.value, c.now, again.now);
        SnapshotUsable(c, after[k], again.now);
      }
      SnapshotMustFit(after, again, maxTTL, after[k]);
    } else {
      NoSnapshot(after, again, maxTTL);
    }
    hide Authenticated, Cacheless, PrincipalOf, BundleCheck, PerformAll, Refusal, Recalled;
  }

  lemma SnapshotUsable(c: Call, e: Entry, now: int)
    requires Answered(c) && e.principal == PrincipalOf(c.verified.value, c.session.value, c.bundle.value)
    requires now < e.expiresAt && BundleCheck(c.bundle.value, now).Pass?
    ensures CachedValid(e, c.verified.value, now)
  {
    hide Trim, BundleCheck, Permissions;
  }

  /** A snapshot is used only for the token's workspace, subject and revision, with a bundle of that token that is
      accepted at this moment, and then the cache stays as it is; any other is deleted and the authority asked. */
  lemma SnapshotMustFit(m: Entries, c: Call, maxTTL: int, e: Entry)
    requires Refusal(c).None? && !c.cancelled && KeyOf(c.verified.value) in m && m[KeyOf(c.verified.value)] == e
    ensures var t, p, r := c.verified.value, e.principal, Authenticated(m, c, maxTTL);
            if c.now < e.expiresAt && p.known && p.contractVersion == "domainry-principal-context-v1"
               && p.workspaceId == t.workspaceId && p.userId == t.subjectId && p.revision == t.revision
               && p.accessBundle.Some? && BundleCheck(p.accessBundle.value, c.now).Pass?
               && BundleFits(p.accessBundle.value, t) then
              r.result == Ok(p) && PerformAll(m, r.sections) == m
            else
              r.result == Cacheless(c) && (c.now < e.expiresAt ==> DeleteSection(KeyOf(t)) in r.sections)
  {
    hide Trim, BundleCheck, PrincipalOf, PerformAll;
    PerformOne(m, EvictSection(KeyOf(c.verified.value), c.now));
  }

  /** With nothing cached under its key, or a cancelled context, a call is answered as if there were no cache; a
      cancelled call also leaves the cache alone. */
  lemma NoSnapshot(m: Entries, c: Call, maxTTL: int)
    requires Refusal(c).None? && (c.cancelled || KeyOf(c.verified.value) !in m)
    ensures Authenticated(m, c, maxTTL).result == Cacheless(c)
    ensures c.cancelled ==> Authenticated(m, c, maxTTL).sections == []
  {
    hide Trim, BundleCheck, PrincipalOf;
  }

  /** What a Get of one key finds does not depend on what is done to other keys before it. */
  lemma {:induction false} OtherKeysFound(m: Entries, run: seq<Section>, k: CacheKey, now: int)
    requires forall s | s in run :: !s.InvalidateSection? && s.key != k && (s.SetSection? ==> s.now <= now)
    ensures Found(PerformAll(m, run), k, now) == Found(m, k, now)
  {
    if run != [] {
      var front, last := run[..|run| - 1], run[|run| - 1];
      assert last in run && forall s | s in front :: s in run;
      OtherKeysFound(m, front, k, now);
      hide PerformAll;
      var before := PerformAll(m, front);
      assert Found(Perform(before, last), k, now) == Found(before, k, now);
    }
  }

  /** A call that passes its session check changes no later answer to another token, be it one of the same subject: the
      token's own ID keeps them apart. */
  lemma OtherTokens(m: Entries, c: Call, maxTTL: int, later: Call)
    requires Refusal(c).None? && Refusal(later).None? && c.now <= later.now
    requires var t, u := c.verified.value, later.verified.value;
             t.tokenId != u.tokenId || t.workspaceId != u.workspaceId || t.subjectId != u.subjectId
             || t.revision != u.revision
    ensures Authenticated(PerformAll(m, Authenticated(m, c, maxTTL).sections), later, maxTTL).result
              == Authenticated(m, later, maxTTL).result
  {
    var run, u := Authenticated(m, c, maxTTL).sections, later.verified.value;
    OwnSections(m, c, maxTTL);
    OtherKeysFound(m, run, KeyOf(u), later.now);
    hide Refusal, PerformAll, CachedValid, Authenticated, Found;
    SameRecall(PerformAll(m, run), m, later, maxTTL);
  }

  lemma SameRecall(m: Entries, n: Entries, c: Call, maxTTL: int)
    requires Refusal(c).None? && Cached(m, c, c.verified.value) == Cached(n, c, c.verified.value)
    ensures Authenticated(m, c, maxTTL).result == Authenticated(n, c, maxTTL).result
  {
    hide Trim, Cached, CachedValid, Resolved, ReadSections, WriteSections;
  }

  lemma OwnSections(m: Entries, c: Call, maxTTL: int)
    requires Refusal(c).None?
    ensures forall s | s in Authenticated(m, c, maxTTL).sections ::
              !s.InvalidateSection? && s.key == KeyOf(c.verified.value) && (s.SetSection? ==> s.now == c.now)
  {
    hide Trim, BundleCheck, PrincipalOf, CachedValid;
  }
}
