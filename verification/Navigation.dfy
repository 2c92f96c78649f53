/** Normalisation of a project navigation catalog: cleaning, the parent walk, and one canonical order. */
module Navigation {
  import opened Wrappers
  import opened Text
  import opened Lists

  const NAVIGATION_CONTRACT_VERSION := "domainry-project-navigation-v1"

  datatype Menu = Menu(
    key: string, labels: map<string, string>, description: string, route: string, icon: string, parentKey: string,
        sortOrder: int)

  datatype RoleMenuSet = RoleMenuSet(roleKey: string, menuKeys: seq<string>)

  datatype Catalog = Catalog(contractVersion: string, menus: seq<Menu>, roleMenuSets: seq<RoleMenuSet>)

  /** The source's error messages, with their arguments. */
  datatype Reason =
    | VersionUnsupported
    | MenuKeyRefused(key: string)
    | NoLabel(key: string)
    | ParentInvalid(key: string, parent: string)
    | ParentCycle(key: string)
    | RoleKeyRefused(role: string)
    | MenuUnknown(role: string, key: string)

  datatype Outcome = Accepted(catalog: Catalog) | Refused(reason: Reason)

  // ----- Keys and labels -----

  predicate WordChar(c: char) {
    'a' <= c <= 'z' || '0' <= c <= '9'
  }

  /** `projectNavigationKeyPattern`: words joined by single separators, the first starting with a letter. */
  predicate ValidKey(s: string) {
    && s != "" && 'a' <= s[0] <= 'z'
    && forall i | 0 < i < |s| :: WordChar(s[i]) || (s[i] in {'.', '_', '-'} && i + 1 < |s| && WordChar(s[i + 1]))
  }

  lemma ValidKeyTrimmed(s: string)
    requires ValidKey(s)
    ensures Trim(s) == s && s != ""
  {
    assert WordChar(s[|s| - 1]);
  }

  predicate Labelled(texts: map<string, string>, locale: string) {
    locale in texts && !Blank(locale) && !Blank(texts[locale])
  }

  /** Some label of the menu says `v` in the locale `l`, once both are trimmed. */
  ghost predicate Offers(texts: map<string, string>, l: string, v: string) {
    exists raw | Labelled(texts, raw) :: Trim(raw) == l && Trim(texts[raw]) == v
  }

  /** Every offered locale is kept, with some value offered for it: where trimmed locales collide, the iteration order
      of a Go map decides which one stays. */
  ghost predicate CleanedTo(texts: map<string, string>, labels: map<string, string>) {
    && (forall raw | Labelled(texts, raw) :: Trim(raw) in labels)
    && (forall l | l in labels :: Offers(texts, l, labels[l]))
  }

  method CleanLabels(texts: map<string, string>) returns (labels: map<string, string>)
    ensures CleanedTo(texts, labels)
  {
    hide Trim;
    labels := map[];
    var pending := texts.Keys;
    while pending != {}
      invariant pending <= texts.Keys
      invariant forall raw | Labelled(texts, raw) && raw !in pending :: Trim(raw) in labels
      invariant forall l | l in labels :: Offers(texts, l, labels[l])
      decreases |pending|
    {
      var raw :| raw in pending;
      var locale, value := Trim(raw), Trim(texts[raw]);
      if locale != "" && value != "" {
        labels := labels[locale := value];
        assert Labelled(texts, raw);
      }
      pending := pending - {raw};
    }
  }

  // ----- Menus -----

  function TrimMenu(m: Menu): Menu {
    Menu(Trim(m.key), m.labels, Trim(m.description), Trim(m.route), Trim(m.icon), Trim(m.parentKey), m.sortOrder)
  }

  ghost predicate CleansTo(m: Menu, n: Menu) {
    n == TrimMenu(m).(labels := n.labels) && CleanedTo(m.labels, n.labels)
  }

  ghost predicate CleansAll(raw: seq<Menu>, menus: seq<Menu>) {
    |menus| == |raw| && forall i | 0 <= i < |raw| :: CleansTo(raw[i], menus[i])
  }

  ghost predicate HasLabel(m: Menu) {
    exists raw :: Labelled(m.labels, raw)
  }

  function MenuKey(m: Menu): string {
    m.key
  }

  function KeysOf(menus: seq<Menu>): set<string> {
    set m | m in menus :: m.key
  }

  lemma KeysOfSnoc(menus: seq<Menu>, m: Menu)
    ensures KeysOf(menus + [m]) == KeysOf(menus) + {m.key}
  {
    assert m in menus + [m];
    assert forall x | x in menus :: x in menus + [m];
  }

  /** The first complaint of the cleaning loop, with the keys seen before. */
  ghost function MenuComplaint(menus: seq<Menu>, seen: set<string>): Option<Reason> {
    if menus == [] then None
    else
      var key := Trim(menus[0].key);
      if !ValidKey(key) || key in seen then Some(MenuKeyRefused(key))
      else if !HasLabel(menus[0]) then Some(NoLabel(key))
      else MenuComplaint(menus[1..], seen + {key})
  }

  lemma NoMenuNoComplaint(seen: set<string>)
    ensures MenuComplaint([], seen) == None
  {
  }

  lemma NoKeys(menus: seq<Menu>)
    requires menus == []
    ensures KeysOf(menus) == {}
  {
  }

  lemma ComplaintStep(menus: seq<Menu>, i: nat, seen: set<string>)
    requires i < |menus|
    ensures MenuComplaint(menus[i..], seen) == (var key := Trim(menus[i].key);
                                                if !ValidKey(key) || key in seen then Some(MenuKeyRefused(key))
                                                else if !HasLabel(menus[i]) then Some(NoLabel(key))
                                                else MenuComplaint(menus[i + 1..], seen + {key}))
  {
    assert menus[i..][1..] == menus[i + 1..];
  }

  lemma CleanedHasLabel(m: Menu, labels: map<string, string>)
    requires CleanedTo(m.labels, labels)
    ensures HasLabel(m) <==> labels != map[]
  {
    hide Trim;
    if labels != map[] {
      var l :| l in labels;
      assert Offers(m.labels, l, labels[l]);
    }
  }

  /** Cleans the menus in place. */
  method CleanMenus(input: seq<Menu>) returns (complaint: Option<Reason>, menus: seq<Menu>, seen: set<string>)
    ensures complaint == MenuComplaint(input, {})
    ensures complaint.None? ==> CleansAll(input, menus) && seen == KeysOf(menus)
  {
    hide CleanedTo, HasLabel, ValidKey, Trim, MenuComplaint, KeysOf;
    menus, seen, complaint := input, {}, None;
    NoKeys(menus[..0]);
    var index := 0;
    assert input[0..] == input;
    while index < |menus|
      invariant 0 <= index <= |menus| == |input|
      invariant forall i | index <= i < |menus| :: menus[i] == input[i]
      invariant forall i | 0 <= i < index :: CleansTo(input[i], menus[i])
      invariant seen == KeysOf(menus[..index])
      invariant MenuComplaint(input, {}) == MenuComplaint(input[index..], seen)
    {
      var menu := menus[index];
      assert menu == input[index];
      ComplaintStep(input, index, seen);
      menu := menu.(key := Trim(menu.key), description := Trim(menu.description), route := Trim(menu.route),
                    icon := Trim(menu.icon), parentKey := Trim(menu.parentKey));
      if !ValidKey(menu.key) || menu.key in seen {
        complaint := Some(MenuKeyRefused(menu.key));
        return;
      }
      var labels := CleanLabels(menu.labels);
      CleanedHasLabel(input[index], labels);
      if labels == map[] {
        complaint := Some(NoLabel(menu.key));
        return;
      }
      seen := seen + {menu.key};
      menu := menu.(labels := labels);
      assert CleansTo(input[index], menu);
      KeysOfSnoc(menus[..index], menu);
      menus := menus[index := menu];
      index := index + 1;
      assert menus[..index] == menus[..index - 1] + [menu];
    }
    assert input[index..] == [] && menus[..index] == menus;
    NoMenuNoComplaint(seen);
  }

  ghost function ParentComplaint(menus: seq<Menu>, seen: set<string>): Option<Reason> {
    if menus == [] then None
    else if menus[0].parentKey != "" && (menus[0].parentKey !in seen || menus[0].parentKey == menus[0].key) then
      Some(ParentInvalid(menus[0].key, menus[0].parentKey))
    else ParentComplaint(menus[1..], seen)
  }

  method CheckParents(menus: seq<Menu>, seen: set<string>) returns (complaint: Option<Reason>)
    ensures complaint == ParentComplaint(menus, seen)
  {
    for i := 0 to |menus|
      invariant ParentComplaint(menus, seen) == ParentComplaint(menus[i..], seen)
    {
      var menu := menus[i];
      if menu.parentKey != "" && (menu.parentKey !in seen || menu.parentKey == menu.key) {
        return Some(ParentInvalid(menu.key, menu.parentKey));
      }
      assert menus[i..][1..] == menus[i + 1..];
    }
    return None;
  }

  // ----- The parent walk -----

  /** `parents[key]`, which is empty for an unknown key. */
  function Parent(parents: map<string, string>, key: string): string {
    if key in parents then parents[key] else ""
  }

  /** Whether the walk from `key` comes back to a key it has visited. */
  function Revisits(parents: map<string, string>, key: string, visited: set<string>): bool
    decreases parents.Keys - visited, key != ""
  {
    if key == "" then false
    else if key in visited then true
    else Revisits(parents, Parent(parents, key), visited + {key})
  }

  /** The number of keys on the walk from `key` to the top. */
  function Depth(parents: map<string, string>, key: string, visited: set<string>): nat
    decreases parents.Keys - visited, key != ""
  {
    if key == "" || key in visited then 0 else 1 + Depth(parents, Parent(parents, key), visited + {key})
  }

  method HasCycle(parents: map<string, string>, start: string) returns (cyclic: bool)
    ensures cyclic == Revisits(parents, start, {})
  {
    var visited: set<string> := {};
    var key := start;
    while key != ""
      invariant Revisits(parents, start, {}) == Revisits(parents, key, visited)
      decreases parents.Keys - visited, key != ""
    {
      if key in visited { return true; }
      visited := visited + {key};
      key := Parent(parents, key);
    }
    return false;
  }

  ghost function CycleComplaint(menus: seq<Menu>, parents: map<string, string>): Option<Reason> {
    if menus == [] then None
    else if Revisits(parents, menus[0].key, {}) then Some(ParentCycle(menus[0].key))
    else CycleComplaint(menus[1..], parents)
  }

  function ParentsOf(menus: seq<Menu>): map<string, string> {
    if menus == [] then map[]
    else
      var last := menus[|menus| - 1];
      ParentsOf(menus[..|menus| - 1])[last.key := last.parentKey]
  }

  method CheckCycles(menus: seq<Menu>) returns (complaint: Option<Reason>)
    ensures complaint == CycleComplaint(menus, ParentsOf(menus))
  {
    var parents: map<string, string> := map[];
    for i := 0 to |menus|
      invariant parents == ParentsOf(menus[..i])
    {
      parents := parents[menus[i].key := menus[i].parentKey];
      assert menus[..i + 1][..i] == menus[..i];
    }
    assert menus[..|menus|] == menus;
    for i := 0 to |menus|
      invariant CycleComplaint(menus, parents) == CycleComplaint(menus[i..], parents)
    {
      var cyclic := HasCycle(parents, menus[i].key);
      if cyclic { return Some(ParentCycle(menus[i].key)); }
      assert menus[i..][1..] == menus[i + 1..];
    }
    return None;
  }

  /** A rank puts every parent strictly below its children. */
  ghost predicate Ranks(rank: map<string, nat>, menus: seq<Menu>) {
    forall m | m in menus && m.parentKey != "" ::
        m.key in rank && m.parentKey in rank && rank[m.parentKey] < rank[m.key]
  }

  lemma {:induction false} RevisitsLess(parents: map<string, string>, key: string, visited: set<string>,
                                        fewer: set<string>)
    requires !Revisits(parents, key, visited) && fewer <= visited
    ensures !Revisits(parents, key, fewer) && Depth(parents, key, fewer) == Depth(parents, key, visited)
    decreases parents.Keys - visited, key != ""
  {
    if key != "" {
      RevisitsLess(parents, Parent(parents, key), visited + {key}, fewer + {key});
    }
  }

  /** Ranks fall along the walk, so it never meets a key twice. */
  lemma {:induction false} RankedWalk(menus: seq<Menu>, rank: map<string, nat>, key: string, visited: set<string>)
    requires Ranks(rank, menus) && KeysDistinct(menus)
    requires key != "" ==> forall v | v in visited :: v in rank && key in rank && rank[key] < rank[v]
    ensures !Revisits(ParentsOf(menus), key, visited)
    decreases ParentsOf(menus).Keys - visited, key != ""
  {
    if key != "" {
      var next := Parent(ParentsOf(menus), key);
      if next != "" {
        ParentsExact(menus, key);
        var m :| m in menus && m.key == key && m.parentKey == next;
      }
      RankedWalk(menus, rank, next, visited + {key});
    }
  }

  ghost predicate KeysDistinct(menus: seq<Menu>) {
    NoDuplicates(Map(MenuKey, menus))
  }

  lemma KeysDistinctFront(menus: seq<Menu>)
    requires menus != [] && KeysDistinct(menus)
    ensures KeysDistinct(menus[..|menus| - 1])
    ensures forall m | m in menus[..|menus| - 1] :: m.key != menus[|menus| - 1].key
  {
    var keys, front := Map(MenuKey, menus), menus[..|menus| - 1];
    assert Map(MenuKey, front) == keys[..|menus| - 1];
    forall m | m in front
      ensures m.key != menus[|menus| - 1].key
    {
      var i :| 0 <= i < |front| && front[i] == m;
      assert keys[i] != keys[|menus| - 1];
    }
  }

  /** The parent table of menus with distinct keys. */
  lemma {:induction false} ParentsExact(menus: seq<Menu>, key: string)
    requires KeysDistinct(menus)
    ensures key in ParentsOf(menus) <==> exists m | m in menus :: m.key == key
    ensures forall m | m in menus :: m.key in ParentsOf(menus) && ParentsOf(menus)[m.key] == m.parentKey
  {
    if menus != [] {
      var front, last := menus[..|menus| - 1], menus[|menus| - 1];
      KeysDistinctFront(menus);
      ParentsExact(front, key);
      assert menus == front + [last];
      assert last in menus;
    }
  }

  lemma {:induction false} NoCycleComplaint(menus: seq<Menu>, parents: map<string, string>)
    ensures CycleComplaint(menus, parents).None? <==> forall m | m in menus :: !Revisits(parents, m.key, {})
  {
    if menus != [] {
      NoCycleComplaint(menus[1..], parents);
      assert menus == [menus[0]] + menus[1..];
    }
  }

  /** The cycle check passes exactly when the hierarchy can be ranked, every parent strictly below its children. */
  lemma AcyclicIffRanked(menus: seq<Menu>)
    requires KeysDistinct(menus) && forall m | m in menus :: m.key != ""
    requires forall m | m in menus && m.parentKey != "" :: exists p | p in menus :: p.key == m.parentKey
    ensures CycleComplaint(menus, ParentsOf(menus)).None? <==> exists rank :: Ranks(rank, menus)
  {
    var parents := ParentsOf(menus);
    NoCycleComplaint(menus, parents);
    ParentsExact(menus, "");
    if CycleComplaint(menus, parents).None? {
      var rank := map k | k in parents :: Depth(parents, k, {});
      forall m | m in menus && m.parentKey != ""
        ensures m.key in rank && m.parentKey in rank && rank[m.parentKey] < rank[m.key]
      {
        ParentsExact(menus, m.parentKey);
        var none: set<string> := {};
        assert Revisits(parents, m.key, none) == Revisits(parents, m.parentKey, none + {m.key});
        RevisitsLess(parents, m.parentKey, none + {m.key}, none);
      }
      assert Ranks(rank, menus);
    }
    if rank :| Ranks(rank, menus) {
      forall m | m in menus
        ensures !Revisits(parents, m.key, {})
      {
        RankedWalk(menus, rank, m.key, {});
      }
    }
  }

  // ----- Role menu sets -----

  function CleanedKeys(raw: seq<string>): seq<string> {
    Unique(Map(Trim, raw))
  }

  function CleanSet(s: RoleMenuSet): RoleMenuSet {
    RoleMenuSet(Trim(s.roleKey), Sort(StringLeq, CleanedKeys(s.menuKeys)))
  }

  function SetRole(s: RoleMenuSet): string {
    s.roleKey
  }

  function KeyComplaint(role: string, keys: seq<string>, known: set<string>): Option<Reason> {
    if keys == [] then None
    else if Trim(keys[0]) !in known then Some(MenuUnknown(role, Trim(keys[0])))
    else KeyComplaint(role, keys[1..], known)
  }

  function SetComplaint(sets: seq<RoleMenuSet>, seen: set<string>, known: set<string>): Option<Reason> {
    if sets == [] then None
    else
      var role := Trim(sets[0].roleKey);
      if !ValidKey(role) || role in seen then Some(RoleKeyRefused(role))
      else if KeyComplaint(role, sets[0].menuKeys, known).Some? then KeyComplaint(role, sets[0].menuKeys, known)
      else SetComplaint(sets[1..], seen + {role}, known)
  }

  lemma KeyComplaintStep(role: string, keys: seq<string>, i: nat, known: set<string>)
    requires i < |keys|
    ensures KeyComplaint(role, keys[i..], known)
         == if Trim(keys[i]) !in known then Some(MenuUnknown(role, Trim(keys[i])))
             else KeyComplaint(role, keys[i + 1..], known)
  {
    assert keys[i..][1..] == keys[i + 1..];
  }

  lemma CleanedKeysStep(raw: seq<string>, i: nat)
    requires i < |raw|
    ensures var keys := CleanedKeys(raw[..i]);
            CleanedKeys(raw[..i + 1]) == if Trim(raw[i]) in keys then keys else keys + [Trim(raw[i])]
  {
    hide Trim;
    assert raw[..i + 1] == raw[..i] + [raw[i]];
    MapSnoc(Trim, raw[..i], raw[i]);
    UniqueSnoc(Map(Trim, raw[..i]), Trim(raw[i]));
  }

  method CleanKeys(role: string, raw: seq<string>, known: set<string>) returns (complaint: Option<Reason>,
                   keys: seq<string>)
    ensures complaint == KeyComplaint(role, raw, known)
    ensures complaint.None? ==> keys == CleanedKeys(raw)
  {
    keys := [];
    var seen: set<string> := {};
    assert raw[..0] == [] && raw[0..] == raw && raw[|raw|..] == [] && raw[..|raw|] == raw;
    assert keys == CleanedKeys([]) && KeyComplaint(role, [], known) == None;
    hide CleanedKeys, Trim, KeyComplaint;
    for i := 0 to |raw|
      invariant KeyComplaint(role, raw, known) == KeyComplaint(role, raw[i..], known)
      invariant keys == CleanedKeys(raw[..i])
      invariant forall k :: k in seen <==> k in keys
    {
      var key := Trim(raw[i]);
      KeyComplaintStep(role, raw, i, known);
      CleanedKeysStep(raw, i);
      if key !in known { return Some(MenuUnknown(role, key)), keys; }
      if key !in seen {
        seen := seen + {key};
        keys := keys + [key];
      }
    }
    return None, keys;
  }

  /** Cleans the role menu sets in place. */
  method CleanSets(input: seq<RoleMenuSet>, known: set<string>) returns (complaint: Option<Reason>,
                   sets: seq<RoleMenuSet>)
    ensures complaint == SetComplaint(input, {}, known)
    ensures complaint.None? ==> sets == Map(CleanSet, input)
  {
    sets := input;
    var seen: set<string> := {};
    for index := 0 to |input|
      invariant |sets| == |input|
      invariant forall i | index <= i < |sets| :: sets[i] == input[i]
      invariant forall i | 0 <= i < index :: sets[i] == CleanSet(input[i])
      invariant SetComplaint(input, {}, known) == SetComplaint(input[index..], seen, known)
    {
      hide ValidKey, Trim, KeyComplaint, Sort, CleanedKeys;
      var role := Trim(sets[index].roleKey);
      assert input[index..][1..] == input[index + 1..];
      if !ValidKey(role) || role in seen { return Some(RoleKeyRefused(role)), sets; }
      seen := seen + {role};
      var keys;
      complaint, keys := CleanKeys(role, sets[index].menuKeys, known);
      if complaint.Some? { return; }
      sets := sets[index := RoleMenuSet(role, Sort(StringLeq, keys))];
    }
    return None, sets;
  }

  // ----- The catalog -----

  predicate MenuLeq(a: Menu, b: Menu) {
    if a.sortOrder == b.sortOrder then StringLeq(a.key, b.key) else a.sortOrder < b.sortOrder
  }

  predicate SetLeq(a: RoleMenuSet, b: RoleMenuSet) {
    StringLeq(a.roleKey, b.roleKey)
  }

  /** What follows once the menus are cleaned. */
  ghost function Finished(menus: seq<Menu>, sets: seq<RoleMenuSet>): Outcome {
    var known := KeysOf(menus);
    if ParentComplaint(menus, known).Some? then Refused(ParentComplaint(menus, known).value)
    else if CycleComplaint(menus, ParentsOf(menus)).Some? then Refused(CycleComplaint(menus, ParentsOf(menus)).value)
    else if SetComplaint(sets, {}, known).Some? then Refused(SetComplaint(sets, {}, known).value)
    else Accepted(Canonical(menus, sets))
  }

  function Canonical(menus: seq<Menu>, sets: seq<RoleMenuSet>): Catalog {
    Catalog(NAVIGATION_CONTRACT_VERSION, Sort(MenuLeq, menus), Sort(SetLeq, Map(CleanSet, sets)))
  }

  /** The possible outcomes of a catalog: one for each way the colliding locales of its menus may fall. */
  ghost predicate Produces(c: Catalog, outcome: Outcome) {
    if Trim(c.contractVersion) != NAVIGATION_CONTRACT_VERSION then outcome == Refused(VersionUnsupported)
    else if MenuComplaint(c.menus, {}).Some? then outcome == Refused(MenuComplaint(c.menus, {}).value)
    else exists menus :: CleansAll(c.menus, menus) && outcome == Finished(menus, c.roleMenuSets)
  }

  /** `NormalizeProjectNavigationCatalog`. */
  method Normalize(input: Catalog) returns (outcome: Outcome)
    ensures Produces(input, outcome)
  {
    hide MenuComplaint, ParentComplaint, CycleComplaint, SetComplaint, CleansAll, CleanSet, Trim, Sort, Map;
    if Trim(input.contractVersion) != NAVIGATION_CONTRACT_VERSION { return Refused(VersionUnsupported); }
    var complaint, menus, seen := CleanMenus(input.menus);
    if complaint.Some? { return Refused(complaint.value); }
    complaint := CheckParents(menus, seen);
    if complaint.Some? { return Refused(complaint.value); }
    complaint := CheckCycles(menus);
    if complaint.Some? { return Refused(complaint.value); }
    var sets;
    complaint, sets := CleanSets(input.roleMenuSets, seen);
    if complaint.Some? { return Refused(complaint.value); }
    return Accepted(Catalog(NAVIGATION_CONTRACT_VERSION, Sort(MenuLeq, menus), Sort(SetLeq, sets)));
  }
}
