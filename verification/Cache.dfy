/** The process-local principal cache: its operations, and any interleaving of their critical sections. */
module Cache {
  import opened Wrappers
  import opened Contract

  datatype CacheKey = CacheKey(workspaceId: string, subjectId: string, revision: string, tokenId: string)

  /** The session's presentation data, carried through unread. */
  datatype View = View(user: string, roles: seq<string>, mustChangePassword: bool)

  datatype Principal = Principal(
    contractVersion: string, known: bool, workspaceId: string, userId: string, roleKey: string, revision: string,
    orgId: string, orgScopeIds: seq<string>, supportOrgId: string, supportOrgScopeIds: seq<string>,
        reportingScopeUserIds: seq<string>,
    view: View, permissions: seq<string>, accessBundle: Option<AccessBundle>)

  datatype Entry = Entry(principal: Principal, expiresAt: int)

  type Entries = map<CacheKey, Entry>

  predicate Expired(e: Entry, now: int) {
    now >= e.expiresAt
  }

  predicate Belongs(k: CacheKey, subject: string, workspace: string) {
    k.subjectId == subject && k.workspaceId == workspace
  }

  /** What an entry lookup finds at a time. */
  function Found(m: Entries, k: CacheKey, now: int): Option<Entry> {
    if k in m && !Expired(m[k], now) then Some(m[k]) else None
  }

  function Evicted(m: Entries, k: CacheKey, now: int): Entries {
    if k in m && Expired(m[k], now) then m - {k} else m
  }

  /** Storing sweeps out every entry expired by then, the stored one included. */
  function Stored(m: Entries, k: CacheKey, e: Entry, now: int): Entries {
    var all := m[k := e];
    map c | c in all && !Expired(all[c], now) :: all[c]
  }

  function Purged(m: Entries, subject: string, workspace: string): Entries {
    map k | k in m && !Belongs(k, subject, workspace) :: m[k]
  }

  /** `memoryCache`. A cancelled context makes every operation fail without touching the entries. */
  class MemoryCache {
    var entries: Entries

    constructor ()
      ensures entries == map[]
    {
      entries := map[];
    }

    /** The read-locked half of Get. */
    method Peek(key: CacheKey) returns (entry: Option<Entry>)
      ensures entry == if key in entries then Some(entries[key]) else None
    {
      return if key in entries then Some(entries[key]) else None;
    }

    /** The write-locked half of Get: the entry is looked at again before it is removed. */
    method Evict(key: CacheKey, now: int)
      modifies this
      ensures entries == Evicted(old(entries), key, now)
    {
      if key in entries && now >= entries[key].expiresAt {
        entries := entries - {key};
      }
    }

    method Get(cancelled: bool, key: CacheKey, now: int) returns (r: Result<Option<Entry>>)
      modifies this
      ensures cancelled ==> r.Err? && entries == old(entries)
      ensures !cancelled ==> r == Ok(Found(old(entries), key, now)) && entries == Evicted(old(entries), key, now)
    {
      if cancelled { return Err("context canceled"); }
      var entry := Peek(key);
      if entry.None? { return Ok(None); }
      if now >= entry.value.expiresAt {
        Evict(key, now);
        return Ok(None);
      }
      return Ok(entry);
    }

    method Set(cancelled: bool, key: CacheKey, entry: Entry, now: int) returns (r: Check)
      modifies this
      ensures cancelled ==> r.Fail? && entries == old(entries)
      ensures !cancelled ==> r.Pass? && entries == Stored(old(entries), key, entry, now)
    {
      if cancelled { return Fail("context canceled"); }
      entries := entries[key := entry];
      ghost var all := entries;
      var pending := entries.Keys;
      while pending != {}
        invariant pending <= all.Keys
        invariant entries == map c | c in all && (c in pending || !Expired(all[c], now)) :: all[c]
        decreases |pending|
      {
        var candidate :| candidate in pending;
        if now >= entries[candidate].expiresAt {
          entries := entries - {candidate};
        }
        pending := pending - {candidate};
      }
      return Pass;
    }

    method Delete(cancelled: bool, key: CacheKey) returns (r: Check)
      modifies this
      ensures cancelled ==> r.Fail? && entries == old(entries)
      ensures !cancelled ==> r.Pass? && entries == old(entries) - {key}
    {
      if cancelled { return Fail("context canceled"); }
      entries := entries - {key};
      return Pass;
    }

    method Invalidate(cancelled: bool, subject: string, workspace: string) returns (r: Check)
      modifies this
      ensures cancelled ==> r.Fail? && entries == old(entries)
      ensures !cancelled ==> r.Pass? && entries == Purged(old(entries), subject, workspace)
    {
      if cancelled { return Fail("context canceled"); }
      ghost var all := entries;
      var pending := entries.Keys;
      while pending != {}
        invariant pending <= all.Keys
        invariant entries == map k | k in all && (k in pending || !Belongs(k, subject, workspace)) :: all[k]
        decreases |pending|
      {
        var key :| key in pending;
        if key.subjectId == subject && key.workspaceId == workspace {
          entries := entries - {key};
        }
        pending := pending - {key};
      }
      return Pass;
    }
  }

  // ----- Interleavings of the critical sections -----

  /** One critical section. A Get is a Peek, which changes nothing, and perhaps an Evict long after it. */
  datatype Section =
    | EvictSection(key: CacheKey, now: int)
    | SetSection(key: CacheKey, entry: Entry, now: int)
    | DeleteSection(key: CacheKey)
    | InvalidateSection(subject: string, workspace: string)

  function Perform(m: Entries, s: Section): Entries {
    match s
    case EvictSection(k, now) => Evicted(m, k, now)
    case SetSection(k, e, now) => Stored(m, k, e, now)
    case DeleteSection(k) => m - {k}
    case InvalidateSection(subject, workspace) => Purged(m, subject, workspace)
  }

  function PerformAll(m: Entries, run: seq<Section>): Entries {
    if run == [] then m else Perform(PerformAll(m, run[..|run| - 1]), run[|run| - 1])
  }

  /** The only reasons an entry may disappear or be replaced: being set anew, deleted, invalidated, or expired at the
      clock reading of the very operation that removes it. */
  predicate Ends(s: Section, k: CacheKey, e: Entry) {
    match s
    case EvictSection(c, now) => c == k && now >= e.expiresAt
    case SetSection(c, _, now) => c == k || now >= e.expiresAt
    case DeleteSection(c) => c == k
    case InvalidateSection(subject, workspace) => k.subjectId == subject && k.workspaceId == workspace
  }

  lemma StepKeeps(m: Entries, s: Section, k: CacheKey)
    requires k in m
    ensures !Ends(s, k, m[k]) ==> k in Perform(m, s) && Perform(m, s)[k] == m[k]
    ensures !s.SetSection? && Ends(s, k, m[k]) ==> k !in Perform(m, s)
  {
  }

  /** Through every interleaving an entry survives until one of its own reasons to end; in particular no late eviction
      of a Get that read an older entry removes a newer, unexpired one. */
  lemma {:induction false} EntriesSurvive(m: Entries, run: seq<Section>, k: CacheKey)
    requires k in m && forall s | s in run :: !Ends(s, k, m[k])
    ensures k in PerformAll(m, run) && PerformAll(m, run)[k] == m[k]
  {
    if run != [] {
      var before := run[..|run| - 1];
      assert forall s | s in before :: s in run;
      EntriesSurvive(m, before, k);
      assert run[|run| - 1] in run;
      StepKeeps(PerformAll(m, before), run[|run| - 1], k);
    }
  }

  /** Nothing is in the cache that was not there before or set during the run. */
  lemma {:induction false} EntriesOriginate(m: Entries, run: seq<Section>, k: CacheKey)
    requires k in PerformAll(m, run)
    ensures var e := PerformAll(m, run)[k];
            (k in m && m[k] == e) || exists s | s in run :: s.SetSection? && s.key == k && s.entry == e
  {
    if run != [] {
      var before, last := run[..|run| - 1], run[|run| - 1];
      assert last in run && forall s | s in before :: s in run;
      if !(last.SetSection? && last.key == k) {
        assert k in PerformAll(m, before) && PerformAll(m, before)[k] == PerformAll(m, run)[k];
        EntriesOriginate(m, before, k);
      }
    }
  }

  /** Nothing after position `i` of the run ends the entry. */
  ghost predicate Lasts(run: seq<Section>, i: nat, k: CacheKey, e: Entry) {
    forall j | i <= j < |run| :: !Ends(run[j], k, e)
  }

  /** The entry was set at some position, not yet expired by the clock of that very Set, and nothing has ended it. */
  ghost predicate SetAndLasts(run: seq<Section>, k: CacheKey, e: Entry) {
    exists i | 0 <= i < |run| ::
        && run[i].SetSection? && run[i].key == k && run[i].entry == e && run[i].now < e.expiresAt
        && Lasts(run, i + 1, k, e)
  }

  predicate Holds(m: Entries, k: CacheKey, e: Entry) {
    k in m && m[k] == e
  }

  lemma StepHolds(m: Entries, s: Section, k: CacheKey, e: Entry)
    ensures Holds(Perform(m, s), k, e) <==>
              || (s.SetSection? && s.key == k && s.entry == e && s.now < e.expiresAt)
              || (Holds(m, k, e) && !Ends(s, k, e))
  {
  }

  lemma LastsSnoc(run: seq<Section>, s: Section, k: CacheKey, e: Entry)
    ensures Lasts(run + [s], 0, k, e) <==> Lasts(run, 0, k, e) && !Ends(s, k, e)
    ensures SetAndLasts(run + [s], k, e) <==>
              || (s.SetSection? && s.key == k && s.entry == e && s.now < e.expiresAt)
              || (SetAndLasts(run, k, e) && !Ends(s, k, e))
  {
    hide Ends;
    var all := run + [s];
    assert forall j | 0 <= j < |run| :: all[j] == run[j];
    assert all[|run|] == s && Lasts(all, |all|, k, e);
    forall i | 0 <= i <= |run|
      ensures Lasts(all, i, k, e) <==> Lasts(run, i, k, e) && !Ends(s, k, e)
    {
    }
  }

  /** The exact contents of the cache after any interleaving: an entry is there iff it was there at the start, or was
      set unexpired during the run, and no later operation ended it. */
  lemma {:induction false} ContentsExactly(m: Entries, run: seq<Section>, k: CacheKey, e: Entry)
    ensures Holds(PerformAll(m, run), k, e) <==> (Holds(m, k, e) && Lasts(run, 0, k, e)) || SetAndLasts(run, k, e)
  {
    if run != [] {
      var before, last := run[..|run| - 1], run[|run| - 1];
      assert run == before + [last];
      ContentsExactly(m, before, k, e);
      StepHolds(PerformAll(m, before), last, k, e);
      LastsSnoc(before, last, k, e);
      hide Holds, Lasts, SetAndLasts, Perform, Ends;
    }
  }

  /** What a Get finds after any interleaving: an entry not yet expired by its own clock that was there at the start or
      set during the run, and that nothing has ended since. */
  lemma FoundExactly(m: Entries, run: seq<Section>, k: CacheKey, now: int, e: Entry)
    ensures Found(PerformAll(m, run), k, now) == Some(e) <==>
              now < e.expiresAt && ((k in m && m[k] == e && Lasts(run, 0, k, e)) || SetAndLasts(run, k, e))
  {
    ContentsExactly(m, run, k, e);
    hide PerformAll, Lasts, SetAndLasts;
  }

  /** A key that is absent stays absent until it is set. */
  lemma AbsentUntilSet(m: Entries, run: seq<Section>, k: CacheKey)
    requires k !in m && forall s | s in run && s.SetSection? :: s.key != k
    ensures k !in PerformAll(m, run)
  {
    if k in PerformAll(m, run) {
      EntriesOriginate(m, run, k);
    }
  }
}
