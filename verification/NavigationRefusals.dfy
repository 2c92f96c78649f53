/** Why a navigation catalog is refused, said in the terms of its own texts: the version first, then the menus one by
    one, their parents, loops among them, and the roles one by one. */
module NavigationRefusals {
  import opened Wrappers
  import opened Text
  import opened Lists
  import opened Navigation
  import opened NavigationLaws
  import opened NavigationMeaning

  lemma RefusedForVersion(c: Catalog, outcome: Outcome)
    requires Produces(c, outcome) && Trim(c.contractVersion) != "domainry-project-navigation-v1"
    ensures outcome == Refused(VersionUnsupported)
  {
    hide Trim;
  }

  // ----- Loops among parents -----

  /** From child to parent, each a listed menu's. */
  predicate Climbs(menus: seq<Menu>, path: seq<string>) {
    forall i | 0 < i < |path| :: path[i] != "" && ChildOf(menus, path[i - 1], path[i])
  }

  predicate ChildOf(menus: seq<Menu>, key: string, parent: string) {
    exists m | m in menus :: Trim(m.key) == key && Trim(m.parentKey) == parent
  }

  /** Climbing from the menu comes back to where it has been. */
  ghost predicate Loops(menus: seq<Menu>, key: string) {
    exists path: seq<string> | Climbs(menus, path) ::
      path != [] && path[0] == key && path[|path| - 1] in path[..|path| - 1]
  }

  /** The cleaned menus, as far as keys and parents go. */
  predicate Keyed(raw: seq<Menu>, menus: seq<Menu>) {
    && |menus| == |raw|
    && forall i | 0 <= i < |raw| :: menus[i].key == Trim(raw[i].key) && menus[i].parentKey == Trim(raw[i].parentKey)
  }

  predicate Walk(parents: map<string, string>, path: seq<string>) {
    forall i | 0 < i < |path| :: path[i] != "" && Parent(parents, path[i - 1]) == path[i]
  }

  lemma {:induction false} RevisitingPath(parents: map<string, string>, key: string, visited: set<string>)
    returns (path: seq<string>)
    requires Revisits(parents, key, visited)
    ensures path != [] && path[0] == key && Walk(parents, path)
    ensures path[|path| - 1] in visited || path[|path| - 1] in path[..|path| - 1]
    decreases parents.Keys - visited, key != ""
  {
    if key in visited {
      path := [key];
    } else {
      var rest := RevisitingPath(parents, Parent(parents, key), visited + {key});
      path := [key] + rest;
      assert path[..|path| - 1] == [key] + rest[..|rest| - 1];
    }
  }

  lemma {:induction false} PathRevisits(parents: map<string, string>, visited: set<string>, path: seq<string>)
    requires path != [] && path[0] != "" && Walk(parents, path)
    requires path[|path| - 1] in visited || path[|path| - 1] in path[..|path| - 1]
    ensures Revisits(parents, path[0], visited)
    decreases |path|
  {
    if path[0] !in visited {
      var rest := path[1..];
      assert path[..|path| - 1] == [path[0]] + rest[..|rest| - 1];
      PathRevisits(parents, visited + {path[0]}, rest);
    }
  }

  lemma ChildMeaning(raw: seq<Menu>, menus: seq<Menu>, key: string, parent: string)
    requires Keyed(raw, menus) && KeysDistinct(menus) && parent != ""
    ensures Parent(ParentsOf(menus), key) == parent <==> ChildOf(raw, key, parent)
  {
    hide Trim, ParentsOf, KeysDistinct;
    ParentsExact(menus, key);
    if Parent(ParentsOf(menus), key) == parent {
      var i :| 0 <= i < |menus| && menus[i].key == key;
      assert menus[i] in menus && raw[i] in raw;
    }
    if ChildOf(raw, key, parent) {
      var i :| 0 <= i < |raw| && Trim(raw[i].key) == key && Trim(raw[i].parentKey) == parent;
      assert menus[i] in menus;
    }
  }

  lemma LoopsMeaning(raw: seq<Menu>, menus: seq<Menu>, key: string)
    requires Keyed(raw, menus) && KeysDistinct(menus) && key != ""
    ensures Loops(raw, key) <==> Revisits(ParentsOf(menus), key, {})
  {
    hide Keyed, KeysDistinct, ParentsOf, ChildOf, Revisits, Parent;
    forall path
      ensures Walk(ParentsOf(menus), path) <==> Climbs(raw, path)
    {
      forall i | 0 < i < |path| && path[i] != ""
        ensures Parent(ParentsOf(menus), path[i - 1]) == path[i] <==> ChildOf(raw, path[i - 1], path[i])
      {
        ChildMeaning(raw, menus, path[i - 1], path[i]);
      }
    }
    hide Walk, Climbs;
    if Revisits(ParentsOf(menus), key, {}) {
      var path := RevisitingPath(ParentsOf(menus), key, {});
      assert Climbs(raw, path);
    }
    if Loops(raw, key) {
      var path :| Climbs(raw, path) && path != [] && path[0] == key && path[|path| - 1] in path[..|path| - 1];
      PathRevisits(ParentsOf(menus), {}, path);
    }
  }

  lemma {:induction false} FirstCycle(menus: seq<Menu>, parents: map<string, string>, i: nat)
    requires i < |menus| && Revisits(parents, menus[i].key, {})
    requires forall j | 0 <= j < i :: !Revisits(parents, menus[j].key, {})
    ensures CycleComplaint(menus, parents) == Some(ParentCycle(menus[i].key))
  {
    if i > 0 {
      assert forall j | 0 <= j < i - 1 :: menus[1..][j] == menus[j + 1];
      FirstCycle(menus[1..], parents, i - 1);
    }
  }

  /** Sound menus, up to their loops. */
  predicate Connected(menus: seq<Menu>) {
    MenusSound(menus) && forall m | m in menus :: ParentListed(m, menus)
  }

  lemma KeyedMenus(raw: seq<Menu>, menus: seq<Menu>)
    requires MenusSound(raw) && CleansAll(raw, menus)
    ensures Keyed(raw, menus) && KeysDistinct(menus) && forall k :: k in KeysOf(menus) <==> Listed(raw, k)
    ensures forall m | m in menus :: m.key != ""
  {
    hide Trim, ValidKey, HasLabel, MenusSound, Listed, KeysOf, CleansTo, Map, Clean, AllClean;
    MenusSoundMeaning(raw);
    CleanedTwins(raw, menus);
    TwinsKeys(Map(TrimMenu, raw), menus);
    TrimmedMenus(raw);
    MapMembers(TrimMenu, raw);
    forall j | 0 <= j < |menus|
      ensures menus[j].key == Trim(raw[j].key) && menus[j].parentKey == Trim(raw[j].parentKey) && menus[j].key != ""
    {
      CleansToClean(raw[j], menus[j]);
      assert raw[j] in raw;
      ValidKeyTrimmed(TrimMenu(raw[j]).key);
    }
  }

  /** What follows once the parents are in the list. */
  lemma PastParents(c: Catalog, outcome: Outcome) returns (menus: seq<Menu>)
    requires Produces(c, outcome) && Trim(c.contractVersion) == "domainry-project-navigation-v1"
    requires Connected(c.menus)
    ensures Keyed(c.menus, menus) && KeysDistinct(menus) && (forall k :: k in KeysOf(menus) <==> Listed(c.menus, k))
    ensures ParentComplaint(menus, KeysOf(menus)).None? && outcome == Finished(menus, c.roleMenuSets)
    ensures forall m | m in menus :: m.key != ""
  {
    hide Trim, ValidKey, HasLabel, MenusSound, Listed, KeysDistinct, KeysOf, Finished, CleansAll, Map;
    MenusSoundMeaning(c.menus);
    MenuComplaintMeaning(c.menus, {});
    menus :| CleansAll(c.menus, menus) && outcome == Finished(menus, c.roleMenuSets);
    KeyedMenus(c.menus, menus);
    ParentComplaintMeaning(menus, KeysOf(menus));
    assert forall j | 0 <= j < |menus| :: ParentListed(c.menus[j], c.menus);
  }

  /** Among menus with their parents in the list, menu `i` is the first from which the climb loops. */
  lemma RefusedForCycle(c: Catalog, outcome: Outcome, i: nat)
    requires Produces(c, outcome) && Trim(c.contractVersion) == "domainry-project-navigation-v1"
    requires Connected(c.menus) && i < |c.menus| && Loops(c.menus, Trim(c.menus[i].key))
    requires forall j | 0 <= j < i :: !Loops(c.menus, Trim(c.menus[j].key))
    ensures outcome == Refused(ParentCycle(Trim(c.menus[i].key)))
  {
    hide Trim, Connected, Loops, KeysDistinct, KeysOf, ParentsOf, Produces;
    var menus := PastParents(c, outcome);
    forall j | 0 <= j < |menus|
      ensures Loops(c.menus, menus[j].key) <==> Revisits(ParentsOf(menus), menus[j].key, {})
    {
      LoopsMeaning(c.menus, menus, menus[j].key);
    }
    hide Revisits;
    FirstCycle(menus, ParentsOf(menus), i);
  }

  /** Heights exist exactly when no climb loops. */
  lemma HeightsIffNoLoop(menus: seq<Menu>)
    requires Connected(menus)
    ensures (exists height :: Falls(height, menus)) <==> forall m | m in menus :: !Loops(menus, Trim(m.key))
  {
    hide Trim, Listed, KeysDistinct, KeysOf, Falls, Ranks, Loops, IsKey, Titled, HasLabel, MenusDistinct, ParentsOf,
      CycleComplaint, Revisits;
    var trimmed := Map(TrimMenu, menus);
    MenusSoundMeaning(menus);
    ForestMeaning(menus);
    TrimmedMenus(menus);
    forall j | 0 <= j < |menus|
      ensures trimmed[j].key != ""
      ensures Loops(menus, trimmed[j].key) <==> Revisits(ParentsOf(trimmed), trimmed[j].key, {})
    {
      assert trimmed[j] in trimmed;
      ValidKeyTrimmed(trimmed[j].key);
      LoopsMeaning(menus, trimmed, trimmed[j].key);
    }
    hide ValidKey;
    RanksIffNoRevisit(trimmed);
    hide TrimMenu;
    MapMembers(TrimMenu, menus);
    assert forall m | m in menus :: TrimMenu(m) in trimmed;
  }

  lemma RanksIffNoRevisit(menus: seq<Menu>)
    requires KeysDistinct(menus) && forall m | m in menus :: m.key != ""
    requires forall m | m in menus && m.parentKey != "" :: m.parentKey in KeysOf(menus) && m.parentKey != m.key
    ensures (exists rank :: Ranks(rank, menus)) <==> forall m | m in menus :: !Revisits(ParentsOf(menus), m.key, {})
  {
    hide KeysDistinct, ParentsOf, Ranks, Revisits, CycleComplaint;
    AcyclicIffRanked(menus);
    NoCycleComplaint(menus, ParentsOf(menus));
  }

  // ----- Roles -----

  /** The first name that is no listed menu. */
  function FirstUnlisted(names: seq<string>, menus: seq<Menu>): string {
    if names == [] then ""
    else if !Listed(menus, Trim(names[0])) then Trim(names[0])
    else FirstUnlisted(names[1..], menus)
  }

  predicate RoleNamed(sets: seq<RoleMenuSet>, role: string) {
    exists s | s in sets :: Trim(s.roleKey) == role
  }

  /** Over a sound hierarchy, role `i` is the first whose key is no key or taken before, or that names an unknown
      menu. */
  lemma RefusedForRole(c: Catalog, outcome: Outcome, i: nat)
    requires Produces(c, outcome) && Trim(c.contractVersion) == "domainry-project-navigation-v1"
    requires Connected(c.menus) && forall m | m in c.menus :: !Loops(c.menus, Trim(m.key))
    requires i < |c.roleMenuSets|
    requires RolesSound(c.roleMenuSets[..i], c.menus) && !RolesSound(c.roleMenuSets[..i + 1], c.menus)
    ensures var s := c.roleMenuSets[i];
            outcome == Refused(if IsKey(Trim(s.roleKey)) && !RoleNamed(c.roleMenuSets[..i], Trim(s.roleKey)) then
                                 MenuUnknown(Trim(s.roleKey), FirstUnlisted(s.menuKeys, c.menus))
                               else RoleKeyRefused(Trim(s.roleKey)))
  {
    var sets := c.roleMenuSets;
    hide Trim, Connected, Loops, KeysDistinct, KeysOf, ParentsOf, Produces, RolesSound, IsKey, Listed, Revisits,
      SetComplaint, FirstUnlisted;
    var menus := PastParents(c, outcome);
    forall j | 0 <= j < |menus|
      ensures !Revisits(ParentsOf(menus), menus[j].key, {})
    {
      LoopsMeaning(c.menus, menus, menus[j].key);
    }
    NoCycleComplaint(menus, ParentsOf(menus));
    assert [] + sets[..i] == sets[..i] && [] + sets[..i + 1] == sets[..i + 1];
    FirstBadRole(sets, [], {}, i, c.menus, KeysOf(menus));
  }

  lemma {:induction false} FirstUnknown(role: string, names: seq<string>, menus: seq<Menu>, known: set<string>)
    requires forall k :: k in known <==> Listed(menus, k)
    ensures KeyComplaint(role, names, known)
              == if forall k | k in names :: Listed(menus, Trim(k)) then None
                 else Some(MenuUnknown(role, FirstUnlisted(names, menus)))
  {
    hide Trim, Listed;
    if names != [] {
      FirstUnknown(role, names[1..], menus, known);
      assert names == [names[0]] + names[1..];
    }
  }

  lemma RolesSoundSnoc(sets: seq<RoleMenuSet>, s: RoleMenuSet, menus: seq<Menu>)
    ensures RolesSound(sets + [s], menus) <==>
              RolesSound(sets, menus) && RoleSound(s, menus) && !RoleNamed(sets, Trim(s.roleKey))
    ensures forall k :: RoleNamed(sets + [s], k) <==> RoleNamed(sets, k) || k == Trim(s.roleKey)
  {
    hide Trim, RoleSound;
    var all := sets + [s];
    assert forall x :: x in all <==> x in sets || x == s;
    assert all[|sets|] == s && forall i | 0 <= i < |sets| :: all[i] == sets[i];
  }

  lemma RolesSoundPrefix(sets: seq<RoleMenuSet>, rest: seq<RoleMenuSet>, menus: seq<Menu>)
    requires RolesSound(sets + rest, menus)
    ensures RolesSound(sets, menus)
  {
    hide Trim, RoleSound;
    var all := sets + rest;
    assert forall s | s in sets :: s in all;
    assert forall i | 0 <= i < |sets| :: all[i] == sets[i];
  }

  lemma {:induction false} FirstBadRole(sets: seq<RoleMenuSet>, done: seq<RoleMenuSet>, seen: set<string>, i: nat,
                                        menus: seq<Menu>, known: set<string>)
    requires i < |sets| && RolesSound(done + sets[..i], menus) && !RolesSound(done + sets[..i + 1], menus)
    requires (forall k :: k in seen <==> RoleNamed(done, k)) && forall k :: k in known <==> Listed(menus, k)
    ensures var s := sets[i];
            SetComplaint(sets, seen, known)
              == Some(if IsKey(Trim(s.roleKey)) && !RoleNamed(done + sets[..i], Trim(s.roleKey)) then
                        MenuUnknown(Trim(s.roleKey), FirstUnlisted(s.menuKeys, menus))
                      else RoleKeyRefused(Trim(s.roleKey)))
    decreases |sets|
  {
    hide Trim, IsKey, ValidKey, RolesSound, Listed, RoleNamed, FirstUnlisted, KeyComplaint;
    var s := sets[0];
    KeyMeaning(Trim(s.roleKey));
    FirstUnknown(Trim(s.roleKey), s.menuKeys, menus, known);
    RolesSoundSnoc(done, s, menus);
    if i == 0 {
      assert done + sets[..0] == done && done + sets[..1] == done + [s];
    } else {
      var more := done + [s];
      assert done + sets[..i] == more + sets[1..][..i - 1] && done + sets[..i + 1] == more + sets[1..][..i];
      RolesSoundPrefix(more, sets[1..][..i - 1], menus);
      FirstBadRole(sets[1..], more, seen + {Trim(s.roleKey)}, i - 1, menus, known);
    }
  }
}
