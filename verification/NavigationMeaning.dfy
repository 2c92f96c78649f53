/** The navigation catalog said in the terms of its own texts: which keys are allowed, when it is accepted, and why it
    is refused. */
module NavigationMeaning {
  import opened Wrappers
  import opened Text
  import opened Lists
  import opened Navigation
  import opened NavigationLaws

  // ----- Keys -----

  predicate Word(s: string) {
    s != "" && forall i | 0 <= i < |s| :: 'a' <= s[i] <= 'z' || '0' <= s[i] <= '9'
  }

  /** A word that starts with a letter, or a key, a separator and a word. */
  predicate IsKey(s: string) {
    || (Word(s) && 'a' <= s[0] <= 'z')
    || exists i | 0 < i < |s| :: s[i] in {'.', '_', '-'} && IsKey(s[..i]) && Word(s[i + 1..])
  }

  lemma {:induction false} KeyMeaning(s: string)
    ensures ValidKey(s) <==> IsKey(s)
  {
    if ValidKey(s) && !Word(s) {
      var i := LastSeparator(s);
      assert forall j | 0 < j < i :: s[..i][j] == s[j];
      KeyMeaning(s[..i]);
      assert Word(s[i + 1..]);
    }
    if IsKey(s) && !(Word(s) && 'a' <= s[0] <= 'z') {
      var i :| 0 < i < |s| && s[i] in {'.', '_', '-'} && IsKey(s[..i]) && Word(s[i + 1..]);
      KeyMeaning(s[..i]);
      SeparatorInside(s, i);
    }
  }

  lemma SeparatorInside(s: string, i: nat)
    requires 0 < i < |s| && s[i] in {'.', '_', '-'} && ValidKey(s[..i]) && Word(s[i + 1..])
    ensures ValidKey(s)
  {
    forall j | 0 < j < |s|
      ensures WordChar(s[j]) || (s[j] in {'.', '_', '-'} && j + 1 < |s| && WordChar(s[j + 1]))
    {
      if j < i {
        assert s[..i][j] == s[j] && (j + 1 < i ==> s[..i][j + 1] == s[j + 1]);
      } else if j == i {
        assert s[i + 1..][0] == s[i + 1];
      } else {
        assert s[i + 1..][j - i - 1] == s[j];
      }
    }
  }

  lemma LastSeparator(s: string) returns (i: nat)
    requires ValidKey(s) && !Word(s)
    ensures 0 < i < |s| && s[i] in {'.', '_', '-'} && Word(s[i + 1..]) && ValidKey(s[..i])
  {
    i := |s| - 1;
    while WordChar(s[i])
      invariant 0 <= i < |s| && forall j | i < j < |s| :: WordChar(s[j])
      decreases i
    {
      i := i - 1;
    }
    var word := s[i + 1..];
    assert forall j | 0 <= j < |word| :: word[j] == s[i + 1 + j];
    forall j | 0 < j < i
      ensures WordChar(s[..i][j]) || (s[..i][j] in {'.', '_', '-'} && j + 1 < i && WordChar(s[..i][j + 1]))
    {
      if j + 1 < i {
        assert s[..i][j + 1] == s[j + 1];
      }
      assert s[..i][j] == s[j];
    }
  }

  // ----- Acceptance -----

  /** Some label with a locale and a text. */
  predicate Titled(m: Menu) {
    exists l | l in m.labels :: Trim(l) != "" && Trim(m.labels[l]) != ""
  }

  predicate Listed(menus: seq<Menu>, key: string) {
    exists m | m in menus :: Trim(m.key) == key
  }

  predicate MenusDistinct(menus: seq<Menu>) {
    forall i, j | 0 <= i < j < |menus| :: Trim(menus[i].key) != Trim(menus[j].key)
  }

  predicate RolesDistinct(sets: seq<RoleMenuSet>) {
    forall i, j | 0 <= i < j < |sets| :: Trim(sets[i].roleKey) != Trim(sets[j].roleKey)
  }

  /** A parent, if named, is another listed menu. */
  predicate ParentListed(m: Menu, menus: seq<Menu>) {
    Trim(m.parentKey) != "" ==> Trim(m.parentKey) != Trim(m.key) && Listed(menus, Trim(m.parentKey))
  }

  /** Heights that fall from every menu to its parent. */
  predicate Falls(height: map<string, nat>, menus: seq<Menu>) {
    forall m | m in menus && Trim(m.parentKey) != "" ::
      Trim(m.key) in height && Trim(m.parentKey) in height && height[Trim(m.parentKey)] < height[Trim(m.key)]
  }

  predicate MenusSound(menus: seq<Menu>) {
    (forall m | m in menus :: IsKey(Trim(m.key)) && Titled(m)) && MenusDistinct(menus)
  }

  predicate RolesSound(sets: seq<RoleMenuSet>, menus: seq<Menu>) {
    (forall s | s in sets :: RoleSound(s, menus)) && RolesDistinct(sets)
  }

  ghost predicate Sound(c: Catalog) {
    && Trim(c.contractVersion) == "domainry-project-navigation-v1"
    && MenusSound(c.menus)
    && (forall m | m in c.menus :: ParentListed(m, c.menus)) && (exists height :: Falls(height, c.menus))
    && RolesSound(c.roleMenuSets, c.menus)
  }

  lemma TitledMeaning(m: Menu)
    ensures HasLabel(TrimMenu(m)) <==> Titled(m)
    ensures HasLabel(m) <==> Titled(m)
  {
    hide Trim;
    TrimmedLabels(m);
    if HasLabel(m) {
      var l :| Labelled(m.labels, l);
    }
    if Titled(m) {
      var l :| l in m.labels && Trim(l) != "" && Trim(m.labels[l]) != "";
      assert Labelled(m.labels, l);
    }
  }

  lemma TrimmedMenus(menus: seq<Menu>)
    ensures KeysDistinct(Map(TrimMenu, menus)) <==> MenusDistinct(menus)
    ensures forall k :: k in KeysOf(Map(TrimMenu, menus)) <==> Listed(menus, k)
  {
    hide Trim;
    var trimmed := Map(TrimMenu, menus);
    var keys := Map(MenuKey, trimmed);
    assert forall i | 0 <= i < |menus| :: keys[i] == Trim(menus[i].key);
    forall k
      ensures k in KeysOf(trimmed) <==> Listed(menus, k)
    {
      if k in KeysOf(trimmed) {
        var i :| 0 <= i < |trimmed| && trimmed[i].key == k;
        assert menus[i] in menus;
      }
      if Listed(menus, k) {
        var i :| 0 <= i < |menus| && Trim(menus[i].key) == k;
        assert trimmed[i] in trimmed;
      }
    }
  }

  lemma MenusSoundMeaning(menus: seq<Menu>)
    ensures MenusSound(menus) <==>
              (forall m | m in Map(TrimMenu, menus) :: ValidKey(m.key) && HasLabel(m))
              && KeysDistinct(Map(TrimMenu, menus))
  {
    hide Trim, ValidKey, HasLabel, IsKey, Titled, KeysDistinct, MenusDistinct, KeysOf;
    TrimmedMenus(menus);
    var trimmed := Map(TrimMenu, menus);
    forall i | 0 <= i < |menus|
      ensures ValidKey(trimmed[i].key) && HasLabel(trimmed[i]) <==> IsKey(Trim(menus[i].key)) && Titled(menus[i])
    {
      KeyMeaning(Trim(menus[i].key));
      TitledMeaning(menus[i]);
    }
    if MenusSound(menus) {
      forall m | m in trimmed
        ensures ValidKey(m.key) && HasLabel(m)
      {
        var i :| 0 <= i < |trimmed| && trimmed[i] == m;
        assert menus[i] in menus;
      }
    }
    if forall m | m in trimmed :: ValidKey(m.key) && HasLabel(m) {
      forall m | m in menus
        ensures IsKey(Trim(m.key)) && Titled(m)
      {
        var i :| 0 <= i < |menus| && menus[i] == m;
        assert trimmed[i] in trimmed;
      }
    }
  }

  lemma ForestMeaning(menus: seq<Menu>)
    ensures var trimmed := Map(TrimMenu, menus);
            && ((forall m | m in menus :: ParentListed(m, menus)) <==>
                  forall m | m in trimmed && m.parentKey != "" ::
                    m.parentKey in KeysOf(trimmed) && m.parentKey != m.key)
            && ((exists height :: Falls(height, menus)) <==> exists rank :: Ranks(rank, trimmed))
  {
    hide Trim, KeysOf, Listed;
    TrimmedMenus(menus);
    MapMembers(TrimMenu, menus);
    var trimmed := Map(TrimMenu, menus);
    forall rank: map<string, nat>
      ensures Falls(rank, menus) <==> Ranks(rank, trimmed)
    {
      RanksFall(rank, menus);
    }
    hide Falls, Ranks, Map;
  }

  lemma RanksFall(rank: map<string, nat>, menus: seq<Menu>)
    ensures Falls(rank, menus) <==> Ranks(rank, Map(TrimMenu, menus))
  {
    hide Trim, Map;
    MapMembers(TrimMenu, menus);
  }

  predicate RoleSound(s: RoleMenuSet, menus: seq<Menu>) {
    IsKey(Trim(s.roleKey)) && forall k | k in s.menuKeys :: Listed(menus, Trim(k))
  }

  lemma RoleSoundMeaning(s: RoleMenuSet, menus: seq<Menu>)
    ensures var t := CleanSet(s);
            RoleSound(s, menus) <==>
              ValidKey(t.roleKey) && forall k | k in t.menuKeys :: k in KeysOf(Map(TrimMenu, menus))
  {
    hide Trim, ValidKey, IsKey, KeysOf, Listed;
    TrimmedMenus(menus);
    KeyMeaning(Trim(s.roleKey));
    CleanSetMembers(s);
    MapMembers(Trim, s.menuKeys);
    hide Sort, Unique, Map;
  }

  lemma RoleNames(sets: seq<RoleMenuSet>)
    ensures NoDuplicates(Map(SetRole, Map(CleanSet, sets))) <==> RolesDistinct(sets)
  {
    hide Trim, Sort, Unique;
    var roles := Map(SetRole, Map(CleanSet, sets));
    assert forall i | 0 <= i < |sets| :: roles[i] == Trim(sets[i].roleKey);
  }

  lemma RolesSoundMeaning(sets: seq<RoleMenuSet>, menus: seq<Menu>)
    ensures RolesSound(sets, menus) <==> WellFormedSets(Map(CleanSet, sets), KeysOf(Map(TrimMenu, menus)))
  {
    var clean, known := Map(CleanSet, sets), KeysOf(Map(TrimMenu, menus));
    RoleNames(sets);
    MapMembers(CleanSet, sets);
    forall s: RoleMenuSet {
      RoleSoundMeaning(s, menus);
    }
    hide Trim, ValidKey, IsKey, KeysOf, Listed, CleanSet, Map, RoleSound, RolesDistinct, NoDuplicates;
    assert (forall s | s in sets :: RoleSound(s, menus)) <==>
        forall t | t in clean :: ValidKey(t.roleKey) && forall k | k in t.menuKeys :: k in known;
  }

  /** A catalog is accepted exactly when it is sound, however colliding locales fall. */
  lemma AcceptedExactly(c: Catalog, outcome: Outcome)
    requires Produces(c, outcome)
    ensures outcome.Accepted? <==> Sound(c)
  {
    Acceptance(c, outcome);
    MenusSoundMeaning(c.menus);
    ForestMeaning(c.menus);
    RolesSoundMeaning(c.roleMenuSets, c.menus);
    hide Produces, Trim, MenusSound, RolesSound, WellFormedSets, ParentListed, Falls, Ranks, ValidKey, HasLabel,
      KeysDistinct, KeysOf, Map;
  }

  // ----- What comes out -----

  /** Each locale that is offered with a text, once, with one of the texts offered for it. */
  predicate LabelsOf(texts: map<string, string>, labels: map<string, string>) {
    && (forall raw | raw in texts && Trim(raw) != "" && Trim(texts[raw]) != "" :: Trim(raw) in labels)
    && (forall l | l in labels :: exists raw | raw in texts ::
          Trim(raw) == l && l != "" && Trim(texts[raw]) == labels[l] && labels[l] != "")
  }

  predicate MenuOf(m: Menu, n: Menu) {
    && n.key == Trim(m.key) && n.description == Trim(m.description) && n.route == Trim(m.route)
    && n.icon == Trim(m.icon) && n.parentKey == Trim(m.parentKey) && n.sortOrder == m.sortOrder
    && LabelsOf(m.labels, n.labels)
  }

  predicate RoleOf(s: RoleMenuSet, t: RoleMenuSet) {
    && t.roleKey == Trim(s.roleKey)
    && (forall k | k in s.menuKeys :: Trim(k) in t.menuKeys)
    && (forall k | k in t.menuKeys :: exists raw | raw in s.menuKeys :: Trim(raw) == k)
  }

  lemma LabelsMeaning(texts: map<string, string>, labels: map<string, string>)
    ensures CleanedTo(texts, labels) <==> LabelsOf(texts, labels)
  {
    hide Trim;
    if CleanedTo(texts, labels) {
      forall l | l in labels
        ensures exists raw | raw in texts ::
                  Trim(raw) == l && l != "" && Trim(texts[raw]) == labels[l] && labels[l] != ""
      {
        assert Offers(texts, l, labels[l]);
      }
      assert forall raw | raw in texts && Trim(raw) != "" && Trim(texts[raw]) != "" :: Labelled(texts, raw);
    }
    if LabelsOf(texts, labels) {
      forall l | l in labels
        ensures Offers(texts, l, labels[l])
      {
        var raw :| raw in texts && Trim(raw) == l && l != "" && Trim(texts[raw]) == labels[l] && labels[l] != "";
        assert Labelled(texts, raw);
      }
    }
  }

  /** An accepted catalog comes out with its own menus and roles, trimmed, each once: the menus strictly by sort order
      and then by key, the roles and their menu keys strictly by name. */
  lemma ComesOut(c: Catalog, out: Catalog)
    requires Produces(c, Accepted(out))
    ensures out.contractVersion == "domainry-project-navigation-v1"
    ensures Reordered(MenuOf, c.menus, out.menus) && Reordered(RoleOf, c.roleMenuSets, out.roleMenuSets)
    ensures forall i, j | 0 <= i < j < |out.menus| ::
              var m, n := out.menus[i], out.menus[j];
              m.sortOrder < n.sortOrder || (m.sortOrder == n.sortOrder && m.key != n.key && StringLeq(m.key, n.key))
    ensures RolesInOrder(out.roleMenuSets)
  {
    OutputOrdered(c, out);
    AcceptedAs(c, out);
    forall m: Menu, n: Menu | CleansTo(m, n)
      ensures MenuOf(m, n)
    {
      LabelsMeaning(m.labels, n.labels);
    }
    forall s: RoleMenuSet, t: RoleMenuSet | SetCleansTo(s, t)
      ensures RoleOf(s, t)
    {
      RoleMeaning(s, t);
    }
    hide CleansTo, MenuOf, SetCleansTo, RoleOf, Produces, Reordered, RolesInOrder;
    ReorderedImplies(CleansTo, MenuOf, c.menus, out.menus);
    ReorderedImplies(SetCleansTo, RoleOf, c.roleMenuSets, out.roleMenuSets);
  }

  lemma RoleMeaning(s: RoleMenuSet, t: RoleMenuSet)
    requires SetCleansTo(s, t)
    ensures RoleOf(s, t)
  {
    hide Trim;
    assert forall k | k in s.menuKeys :: Mentions(s, Trim(k));
  }

  // ----- Why a catalog is refused -----

  /** Menu `i` is the first whose key is no key or taken before, or that has no label. */
  lemma RefusedForMenu(c: Catalog, outcome: Outcome, i: nat)
    requires Produces(c, outcome) && Trim(c.contractVersion) == "domainry-project-navigation-v1"
    requires i < |c.menus| && MenusSound(c.menus[..i]) && !MenusSound(c.menus[..i + 1])
    ensures var m := c.menus[i];
            outcome == Refused(if IsKey(Trim(m.key)) && !Listed(c.menus[..i], Trim(m.key)) then NoLabel(Trim(m.key))
                               else MenuKeyRefused(Trim(m.key)))
  {
    hide Trim, IsKey, Titled, HasLabel, ValidKey, MenusSound, Listed;
    assert [] + c.menus[..i] == c.menus[..i] && [] + c.menus[..i + 1] == c.menus[..i + 1];
    NoneListed();
    FirstBadMenu(c.menus, [], {}, i);
  }

  lemma NoneListed()
    ensures forall k :: !Listed([], k)
  {
  }

  lemma MenusSoundSnoc(menus: seq<Menu>, m: Menu)
    ensures MenusSound(menus + [m]) <==>
              MenusSound(menus) && IsKey(Trim(m.key)) && Titled(m) && !Listed(menus, Trim(m.key))
    ensures forall k :: Listed(menus + [m], k) <==> Listed(menus, k) || k == Trim(m.key)
  {
    hide Trim, IsKey, Titled;
    var all := menus + [m];
    assert forall x :: x in all <==> x in menus || x == m;
    assert all[|menus|] == m && forall i | 0 <= i < |menus| :: all[i] == menus[i];
  }

  lemma MenusSoundPrefix(menus: seq<Menu>, rest: seq<Menu>)
    requires MenusSound(menus + rest)
    ensures MenusSound(menus)
  {
    hide Trim, IsKey, Titled;
    var all := menus + rest;
    assert forall m | m in menus :: m in all;
    assert forall i | 0 <= i < |menus| :: all[i] == menus[i];
  }

  lemma {:induction false} FirstBadMenu(menus: seq<Menu>, done: seq<Menu>, seen: set<string>, i: nat)
    requires i < |menus| && MenusSound(done + menus[..i]) && !MenusSound(done + menus[..i + 1])
    requires forall k :: k in seen <==> Listed(done, k)
    ensures var m := menus[i];
            MenuComplaint(menus, seen)
              == Some(if IsKey(Trim(m.key)) && !Listed(done + menus[..i], Trim(m.key)) then NoLabel(Trim(m.key))
                      else MenuKeyRefused(Trim(m.key)))
    decreases |menus|
  {
    hide Trim, IsKey, Titled, HasLabel, ValidKey, MenusSound, Listed;
    var m := menus[0];
    KeyMeaning(Trim(m.key));
    TitledMeaning(m);
    MenusSoundSnoc(done, m);
    if i == 0 {
      assert done + menus[..0] == done && done + menus[..1] == done + [m];
    } else {
      var more := done + [m];
      assert done + menus[..i] == more + menus[1..][..i - 1] && done + menus[..i + 1] == more + menus[1..][..i];
      MenusSoundPrefix(more, menus[1..][..i - 1]);
      FirstBadMenu(menus[1..], more, seen + {Trim(m.key)}, i - 1);
    }
  }

  /** Among sound menus, menu `i` is the first whose parent is itself or nowhere in the list. */
  lemma RefusedForParent(c: Catalog, outcome: Outcome, i: nat)
    requires Produces(c, outcome) && Trim(c.contractVersion) == "domainry-project-navigation-v1"
    requires MenusSound(c.menus) && i < |c.menus| && !ParentListed(c.menus[i], c.menus)
    requires forall j | 0 <= j < i :: ParentListed(c.menus[j], c.menus)
    ensures outcome == Refused(ParentInvalid(Trim(c.menus[i].key), Trim(c.menus[i].parentKey)))
  {
    hide Trim, ValidKey, HasLabel, MenusSound, Listed, KeysDistinct, KeysOf, Finished, CleansTo;
    MenusSoundMeaning(c.menus);
    MenuComplaintMeaning(c.menus, {});
    var menus: seq<Menu> :| CleansAll(c.menus, menus) && outcome == Finished(menus, c.roleMenuSets);
    CleanedTwins(c.menus, menus);
    TwinsKeys(Map(TrimMenu, c.menus), menus);
    TrimmedMenus(c.menus);
    forall j | 0 <= j < |menus|
      ensures menus[j].key == Trim(c.menus[j].key) && menus[j].parentKey == Trim(c.menus[j].parentKey)
    {
      CleansToClean(c.menus[j], menus[j]);
    }
    FirstBadParent(menus, KeysOf(menus), i);
    FinishedParent(menus, c.roleMenuSets);
  }

  lemma FinishedParent(menus: seq<Menu>, sets: seq<RoleMenuSet>)
    requires ParentComplaint(menus, KeysOf(menus)).Some?
    ensures Finished(menus, sets) == Refused(ParentComplaint(menus, KeysOf(menus)).value)
  {
  }

  lemma {:induction false} FirstBadParent(menus: seq<Menu>, known: set<string>, i: nat)
    requires i < |menus|
    requires menus[i].parentKey != "" && (menus[i].parentKey !in known || menus[i].parentKey == menus[i].key)
    requires forall j | 0 <= j < i ::
               menus[j].parentKey != "" ==> menus[j].parentKey in known && menus[j].parentKey != menus[j].key
    ensures ParentComplaint(menus, known) == Some(ParentInvalid(menus[i].key, menus[i].parentKey))
  {
    if i > 0 {
      assert forall j | 0 <= j < i - 1 :: menus[1..][j] == menus[j + 1];
      FirstBadParent(menus[1..], known, i - 1);
    }
  }
}
