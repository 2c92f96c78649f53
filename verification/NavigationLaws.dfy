/** What a normalised navigation catalog is: accepted exactly when well formed, a fixed point, and blind to input
    order. */
module NavigationLaws {
  import opened Text
  import opened Lists
  import opened Navigation

  /** The menus form a forest of validly named, labelled entries. */
  ghost predicate WellFormedMenus(menus: seq<Menu>) {
    && (forall m | m in menus :: ValidKey(m.key) && HasLabel(m))
    && KeysDistinct(menus)
    && (forall m | m in menus && m.parentKey != "" :: m.parentKey in KeysOf(menus) && m.parentKey != m.key)
    && (exists rank :: Ranks(rank, menus))
  }

  /** The roles are validly named, distinct, and refer to known menus only. */
  ghost predicate WellFormedSets(sets: seq<RoleMenuSet>, known: set<string>) {
    && (forall s | s in sets :: ValidKey(s.roleKey) && forall k | k in s.menuKeys :: k in known)
    && NoDuplicates(Map(SetRole, sets))
  }

  ghost predicate WellFormed(c: Catalog) {
    && Trim(c.contractVersion) == NAVIGATION_CONTRACT_VERSION
    && WellFormedMenus(Map(TrimMenu, c.menus))
    && WellFormedSets(Map(CleanSet, c.roleMenuSets), KeysOf(Map(TrimMenu, c.menus)))
  }

  // ----- The three loops -----

  lemma {:induction false} MenuComplaintMeaning(menus: seq<Menu>, seen: set<string>)
    ensures var trimmed := Map(TrimMenu, menus);
            MenuComplaint(menus, seen).None? <==>
              && (forall m | m in trimmed :: ValidKey(m.key) && m.key !in seen && HasLabel(m))
              && KeysDistinct(trimmed)
  {
    hide ValidKey, Trim, Map, Labelled;
    if menus == [] {
      assert |Map(TrimMenu, menus)| == 0;
    } else {
      var trimmed := Map(TrimMenu, menus);
      var m := trimmed[0];
      MapTail(TrimMenu, menus);
      MenuComplaintMeaning(menus[1..], seen + {m.key});
      DistinctTail(MenuKey, trimmed);
      assert trimmed == [m] + trimmed[1..];
      assert HasLabel(menus[0]) <==> HasLabel(m);
    }
  }

  lemma {:induction false} ParentComplaintMeaning(menus: seq<Menu>, known: set<string>)
    ensures ParentComplaint(menus, known).None?
            <==> forall m | m in menus && m.parentKey != "" :: m.parentKey in known && m.parentKey != m.key
  {
    if menus != [] {
      ParentComplaintMeaning(menus[1..], known);
      assert menus == [menus[0]] + menus[1..];
    }
  }

  lemma {:induction false} KeyComplaintMeaning(role: string, keys: seq<string>, known: set<string>)
    ensures KeyComplaint(role, keys, known).None? <==> forall k | k in Map(Trim, keys) :: k in known
  {
    hide Trim;
    if keys != [] {
      KeyComplaintMeaning(role, keys[1..], known);
      MapTail(Trim, keys);
      var trimmed := Map(Trim, keys);
      assert trimmed == [trimmed[0]] + trimmed[1..];
    }
  }

  lemma CleanSetMembers(s: RoleMenuSet)
    ensures forall k :: k in CleanSet(s).menuKeys <==> k in Map(Trim, s.menuKeys)
    ensures NoDuplicates(CleanSet(s).menuKeys)
  {
    hide Trim, Sort, Unique, Map;
    var keys := Unique(Map(Trim, s.menuKeys));
    SameMembers(Sort(StringLeq, keys), keys);
    NoDuplicatesPermuted(keys, Sort(StringLeq, keys));
  }

  lemma WellFormedSetsStep(sets: seq<RoleMenuSet>, known: set<string>)
    requires sets != []
    ensures WellFormedSets(sets, known)
            <==> && ValidKey(sets[0].roleKey) && (forall k | k in sets[0].menuKeys :: k in known)
                 && WellFormedSets(sets[1..], known) && forall s | s in sets[1..] :: s.roleKey != sets[0].roleKey
  {
    hide ValidKey, Map;
    DistinctTail(SetRole, sets);
    assert sets == [sets[0]] + sets[1..];
  }

  lemma {:induction false} SetComplaintMeaning(sets: seq<RoleMenuSet>, seen: set<string>, known: set<string>)
    ensures var clean := Map(CleanSet, sets);
            SetComplaint(sets, seen, known).None? <==>
                WellFormedSets(clean, known) && forall s | s in clean :: s.roleKey !in seen
  {
    hide ValidKey, KeyComplaint, Trim, Map, Sort, Unique;
    if sets == [] {
      assert |Map(CleanSet, sets)| == 0 && |Map(SetRole, Map(CleanSet, sets))| == 0;
    } else {
      var clean := Map(CleanSet, sets);
      var role := Trim(sets[0].roleKey);
      MapTail(CleanSet, sets);
      SetComplaintMeaning(sets[1..], seen + {role}, known);
      WellFormedSetsStep(clean, known);
      KeyComplaintMeaning(role, sets[0].menuKeys, known);
      CleanSetMembers(sets[0]);
      assert clean[0].roleKey == role;
      hide CleanSet, WellFormedSets;
      assert clean == [clean[0]] + clean[1..];
    }
  }

  // ----- Cleaned menus -----

  ghost predicate AllClean(texts: map<string, string>) {
    forall l | l in texts :: Trim(l) == l && l != "" && Trim(texts[l]) == texts[l] && texts[l] != ""
  }

  ghost predicate Clean(m: Menu) {
    TrimMenu(m) == m && AllClean(m.labels)
  }

  lemma CleanedClean(texts: map<string, string>, labels: map<string, string>)
    requires CleanedTo(texts, labels)
    ensures AllClean(labels)
  {
    hide Trim;
  }

  lemma CleanFixed(texts: map<string, string>, labels: map<string, string>)
    requires AllClean(texts)
    ensures CleanedTo(texts, labels) <==> labels == texts
  {
    hide Trim;
    assert forall l | l in texts :: Labelled(texts, l) && Offers(texts, l, texts[l]);
    if CleanedTo(texts, labels) {
      assert forall l | l in labels :: Offers(texts, l, labels[l]);
      assert labels.Keys == texts.Keys;
    }
  }

  lemma CleansToClean(m: Menu, n: Menu)
    requires CleansTo(m, n)
    ensures Clean(n) && n.key == Trim(m.key) && n.parentKey == Trim(m.parentKey) && (HasLabel(n) <==> HasLabel(m))
  {
    hide Trim, CleanedTo, AllClean;
    CleanedClean(m.labels, n.labels);
    CleanedHasLabel(m, n.labels);
    CleanFixed(n.labels, n.labels);
    CleanedHasLabel(n, n.labels);
  }

  lemma CleanMenuFixed(m: Menu, n: Menu)
    requires Clean(m)
    ensures CleansTo(m, n) <==> n == m
  {
    hide Trim, CleanedTo, AllClean;
    CleanFixed(m.labels, n.labels);
  }

  /** The checks after the cleaning see keys and parents only, and these do not depend on the labels that stay. */
  ghost predicate Twins(menus: seq<Menu>, others: seq<Menu>) {
    && |menus| == |others|
    && forall i | 0 <= i < |menus| ::
        && menus[i].key == others[i].key && menus[i].parentKey == others[i].parentKey
        && (HasLabel(menus[i]) <==> HasLabel(others[i]))
  }

  lemma CleanedTwins(raw: seq<Menu>, menus: seq<Menu>)
    requires CleansAll(raw, menus)
    ensures Twins(Map(TrimMenu, raw), menus)
  {
    hide Trim, Map, HasLabel, CleansTo;
    forall i | 0 <= i < |raw|
      ensures HasLabel(Map(TrimMenu, raw)[i]) <==> HasLabel(menus[i])
      ensures menus[i].key == Trim(raw[i].key) && menus[i].parentKey == Trim(raw[i].parentKey)
    {
      CleansToClean(raw[i], menus[i]);
      TrimmedLabels(raw[i]);
    }
  }

  lemma TrimmedLabels(m: Menu)
    ensures HasLabel(TrimMenu(m)) <==> HasLabel(m)
  {
    hide Trim, Labelled;
  }

  lemma TwinsKeys(menus: seq<Menu>, others: seq<Menu>)
    requires Twins(menus, others)
    ensures KeysOf(menus) == KeysOf(others) && Map(MenuKey, menus) == Map(MenuKey, others)
  {
    hide HasLabel;
    forall i | 0 <= i < |menus|
      ensures menus[i].key in KeysOf(others) && others[i].key in KeysOf(menus)
    {
      assert menus[i] in menus && others[i] in others;
    }
    forall k
      ensures k in KeysOf(menus) <==> k in KeysOf(others)
    {
      if k in KeysOf(menus) {
        var i :| 0 <= i < |menus| && menus[i].key == k;
      }
      if k in KeysOf(others) {
        var i :| 0 <= i < |others| && others[i].key == k;
      }
    }
  }

  lemma TwinsWellFormed(menus: seq<Menu>, others: seq<Menu>)
    requires Twins(menus, others) && WellFormedMenus(menus)
    ensures WellFormedMenus(others)
  {
    hide HasLabel, KeysOf, ValidKey, Map;
    TwinsKeys(menus, others);
    var rank :| Ranks(rank, menus);
    forall m | m in others
      ensures ValidKey(m.key) && HasLabel(m)
      ensures m.parentKey != "" ==> m.parentKey in KeysOf(others) && m.parentKey != m.key
      ensures m.parentKey != "" ==> m.key in rank && m.parentKey in rank && rank[m.parentKey] < rank[m.key]
    {
      var i :| 0 <= i < |others| && others[i] == m;
      assert menus[i] in menus;
    }
    assert Ranks(rank, others);
  }

  lemma TwinsSymmetric(menus: seq<Menu>, others: seq<Menu>)
    requires Twins(menus, others)
    ensures Twins(others, menus)
  {
    hide HasLabel;
  }

  // ----- Acceptance -----

  /** Past the cleaning, exactly a forest with well-formed roles is accepted. */
  lemma FinishedAccepts(menus: seq<Menu>, sets: seq<RoleMenuSet>)
    requires KeysDistinct(menus) && forall m | m in menus :: ValidKey(m.key) && HasLabel(m)
    ensures Finished(menus, sets).Accepted? <==>
              WellFormedMenus(menus) && WellFormedSets(Map(CleanSet, sets), KeysOf(menus))
  {
    hide ValidKey, HasLabel, CleanSet, Map, ParentComplaint, CycleComplaint, SetComplaint, WellFormedSets, Ranks;
    ParentComplaintMeaning(menus, KeysOf(menus));
    SetComplaintMeaning(sets, {}, KeysOf(menus));
    if ParentComplaint(menus, KeysOf(menus)).None? {
      forall m | m in menus
        ensures m.key != ""
      {
        ValidKeyTrimmed(m.key);
      }
      AcyclicIffRanked(menus);
    }
  }

  lemma CleanedFinish(raw: seq<Menu>, menus: seq<Menu>, sets: seq<RoleMenuSet>)
    requires CleansAll(raw, menus) && MenuComplaint(raw, {}).None?
    ensures var trimmed := Map(TrimMenu, raw);
            Finished(menus, sets).Accepted? <==>
              WellFormedMenus(trimmed) && WellFormedSets(Map(CleanSet, sets), KeysOf(trimmed))
  {
    hide ValidKey, HasLabel, CleanSet, Map, WellFormedSets, Ranks, CleansTo, TrimMenu, Finished, KeysOf;
    var trimmed := Map(TrimMenu, raw);
    MenuComplaintMeaning(raw, {});
    CleanedTwins(raw, menus);
    TwinsSymmetric(trimmed, menus);
    TwinsKeys(trimmed, menus);
    if WellFormedMenus(trimmed) {
      TwinsWellFormed(trimmed, menus);
    }
    if WellFormedMenus(menus) {
      TwinsWellFormed(menus, trimmed);
    }
    forall m | m in menus
      ensures ValidKey(m.key) && HasLabel(m)
    {
      var i :| 0 <= i < |menus| && menus[i] == m;
      assert trimmed[i] in trimmed;
    }
    FinishedAccepts(menus, sets);
  }

  /** Exactly the well-formed catalogs are accepted, however colliding locales fall. */
  lemma Acceptance(c: Catalog, outcome: Outcome)
    requires Produces(c, outcome)
    ensures outcome.Accepted? <==> WellFormed(c)
  {
    hide CleansAll, Finished, WellFormedMenus, WellFormedSets, MenuComplaint, Map, Trim, KeysOf;
    if Trim(c.contractVersion) == NAVIGATION_CONTRACT_VERSION {
      if MenuComplaint(c.menus, {}).None? {
        var menus :| CleansAll(c.menus, menus) && outcome == Finished(menus, c.roleMenuSets);
        CleanedFinish(c.menus, menus, c.roleMenuSets);
      } else {
        ComplaintIllFormed(c.menus);
      }
    }
  }

  lemma ComplaintIllFormed(raw: seq<Menu>)
    requires MenuComplaint(raw, {}).Some?
    ensures !WellFormedMenus(Map(TrimMenu, raw))
  {
    hide ValidKey, HasLabel, Map, Ranks, TrimMenu;
    MenuComplaintMeaning(raw, {});
  }

  /** The catalogs a well-formed one may normalise to. */
  lemma AcceptedAs(c: Catalog, out: Catalog)
    ensures Produces(c, Accepted(out)) <==>
              WellFormed(c) && exists menus :: CleansAll(c.menus, menus) && out == Canonical(menus, c.roleMenuSets)
  {
    hide CleansAll, WellFormedMenus, WellFormedSets, MenuComplaint, Map, Trim, KeysOf, Canonical;
    if Produces(c, Accepted(out)) {
      Acceptance(c, Accepted(out));
    }
    if menus :| WellFormed(c) && CleansAll(c.menus, menus) && out == Canonical(menus, c.roleMenuSets) {
      if MenuComplaint(c.menus, {}).Some? {
        ComplaintIllFormed(c.menus);
      } else {
        CleanedFinish(c.menus, menus, c.roleMenuSets);
        assert Finished(menus, c.roleMenuSets) == Accepted(out);
      }
    }
  }

  // ----- Role menu sets -----

  lemma CleanSetFixed(s: RoleMenuSet)
    ensures CleanSet(CleanSet(s)) == CleanSet(s)
  {
    hide Trim, Sort, Unique, Map, StringLeq;
    var keys := CleanSet(s).menuKeys;
    CleanSetMembers(s);
    assert forall k | k in Map(Trim, s.menuKeys) :: Trim(k) == k;
    MapFixed(Trim, keys);
    UniqueFixed(keys);
    StringOrder();
    SortSorted(StringLeq, Unique(Map(Trim, s.menuKeys)));
    SortFixed(StringLeq, keys);
  }

  /** Repetitions and the order of a role's menu keys do not matter. */
  lemma MenuKeysAsSet(s: RoleMenuSet, t: RoleMenuSet)
    requires Trim(s.roleKey) == Trim(t.roleKey) && forall k :: k in Map(Trim, s.menuKeys) <==>
               k in Map(Trim, t.menuKeys)
    ensures CleanSet(s) == CleanSet(t)
  {
    hide Trim, Sort, Unique, Map, StringLeq;
    StringOrder();
    SameMembersOnce(Unique(Map(Trim, s.menuKeys)), Unique(Map(Trim, t.menuKeys)));
    SortPermuted(StringLeq, Unique(Map(Trim, s.menuKeys)), Unique(Map(Trim, t.menuKeys)));
  }

  // ----- Order -----

  lemma MenusOrdered()
    ensures Ordering(MenuLeq) && Ordering(SetLeq)
  {
    StringOrder();
    hide StringLeq;
  }

  lemma KeyDecides(menus: seq<Menu>)
    requires KeysDistinct(menus)
    ensures Separates(MenuLeq, menus)
  {
    hide StringLeq, Map;
    forall a, b | a in menus && b in menus && MenuLeq(a, b) && MenuLeq(b, a)
      ensures a == b
    {
      StringLeqTotal(a.key, b.key);
      var i, j :| 0 <= i < |menus| && 0 <= j < |menus| && menus[i] == a && menus[j] == b;
      var keys := Map(MenuKey, menus);
      assert keys[i] == keys[j];
    }
  }

  lemma RoleDecides(sets: seq<RoleMenuSet>)
    requires NoDuplicates(Map(SetRole, sets))
    ensures Separates(SetLeq, sets)
  {
    hide StringLeq, Map;
    forall a, b | a in sets && b in sets && SetLeq(a, b) && SetLeq(b, a)
      ensures a == b
    {
      StringLeqTotal(a.roleKey, b.roleKey);
      var i, j :| 0 <= i < |sets| && 0 <= j < |sets| && sets[i] == a && sets[j] == b;
      var roles := Map(SetRole, sets);
      assert roles[i] == roles[j];
    }
  }

  lemma WellFormedPermuted(menus: seq<Menu>, others: seq<Menu>)
    requires multiset(menus) == multiset(others) && WellFormedMenus(menus)
    ensures WellFormedMenus(others) && KeysOf(others) == KeysOf(menus)
  {
    hide ValidKey, Map;
    SameMembers(menus, others);
    MapPermuted(MenuKey, menus, others);
    NoDuplicatesPermuted(Map(MenuKey, menus), Map(MenuKey, others));
    var rank :| Ranks(rank, menus);
    assert Ranks(rank, others);
  }

  lemma WellFormedSetsPermuted(sets: seq<RoleMenuSet>, others: seq<RoleMenuSet>, known: set<string>)
    requires multiset(sets) == multiset(others) && WellFormedSets(sets, known)
    ensures WellFormedSets(others, known)
  {
    hide ValidKey, Map;
    SameMembers(sets, others);
    MapPermuted(SetRole, sets, others);
    NoDuplicatesPermuted(Map(SetRole, sets), Map(SetRole, others));
  }

  /** A canonical catalog is determined by its entries, whatever their order was. */
  lemma CanonicalAlike(menus: seq<Menu>, sets: seq<RoleMenuSet>, others: seq<Menu>, otherSets: seq<RoleMenuSet>)
    requires KeysDistinct(menus) && NoDuplicates(Map(SetRole, Map(CleanSet, sets)))
    ensures Canonical(menus, sets) == Canonical(others, otherSets) <==>
              multiset(menus) == multiset(others) && multiset(Map(CleanSet, sets)) == multiset(Map(CleanSet, otherSets))
  {
    hide Map, CleanSet, Sort, MenuLeq, SetLeq, Ordering, Separates, NoDuplicates;
    MenusOrdered();
    KeyDecides(menus);
    RoleDecides(Map(CleanSet, sets));
    SortedAlike(MenuLeq, menus, others);
    SortedAlike(SetLeq, Map(CleanSet, sets), Map(CleanSet, otherSets));
  }

  lemma WellFormedKeys(c: Catalog, menus: seq<Menu>)
    requires WellFormed(c) && CleansAll(c.menus, menus)
    ensures WellFormedMenus(menus) && KeysOf(menus) == KeysOf(Map(TrimMenu, c.menus))
    ensures KeysDistinct(menus) && NoDuplicates(Map(SetRole, Map(CleanSet, c.roleMenuSets)))
  {
    hide CleansTo, ValidKey, HasLabel, Ranks, Map, KeysOf;
    CleanedTwins(c.menus, menus);
    TwinsKeys(Map(TrimMenu, c.menus), menus);
    TwinsWellFormed(Map(TrimMenu, c.menus), menus);
  }

  // ----- Fixed points -----

  lemma CleanListFixed(menus: seq<Menu>, others: seq<Menu>)
    requires forall m | m in menus :: Clean(m)
    ensures CleansAll(menus, others) <==> others == menus
    ensures Map(TrimMenu, menus) == menus
  {
    hide CleansTo, TrimMenu, Map, AllClean;
    MapFixed(TrimMenu, menus);
    forall i | 0 <= i < |menus| && i < |others|
      ensures CleansTo(menus[i], others[i]) <==> others[i] == menus[i]
    {
      CleanMenuFixed(menus[i], others[i]);
    }
  }

  lemma CanonicalClean(raw: seq<Menu>, menus: seq<Menu>, sets: seq<RoleMenuSet>)
    requires CleansAll(raw, menus)
    ensures var out := Canonical(menus, sets);
            && (forall m | m in out.menus :: Clean(m))
            && multiset(out.menus) == multiset(menus)
            && multiset(out.roleMenuSets) == multiset(Map(CleanSet, sets))
            && Map(CleanSet, out.roleMenuSets) == out.roleMenuSets
  {
    hide Map, CleansTo, CleanSet, Sort, Clean;
    var out, clean := Canonical(menus, sets), Map(CleanSet, sets);
    SameMembers(out.menus, menus);
    SameMembers(out.roleMenuSets, clean);
    forall m | m in out.menus
      ensures Clean(m)
    {
      var i :| 0 <= i < |menus| && menus[i] == m;
      CleansToClean(raw[i], m);
    }
    forall s | s in out.roleMenuSets
      ensures CleanSet(s) == s
    {
      var i :| 0 <= i < |clean| && clean[i] == s;
      CleanSetFixed(sets[i]);
    }
    MapFixed(CleanSet, out.roleMenuSets);
  }

  /** What normalisation returns is accepted again and returned unchanged, and can only be. */
  lemma Idempotent(c: Catalog, out: Catalog, again: Outcome)
    requires Produces(c, Accepted(out))
    ensures Produces(out, again) <==> again == Accepted(out)
  {
    hide Map, CleansAll, CleanSet, Sort, Produces, WellFormedMenus, WellFormedSets, Clean, NoDuplicates, KeysOf;
    AcceptedAs(c, out);
    var menus :| CleansAll(c.menus, menus) && out == Canonical(menus, c.roleMenuSets);
    WellFormedKeys(c, menus);
    CanonicalClean(c.menus, menus, c.roleMenuSets);
    CleanListFixed(out.menus, out.menus);
    WellFormedPermuted(menus, out.menus);
    WellFormedSetsPermuted(Map(CleanSet, c.roleMenuSets), out.roleMenuSets, KeysOf(menus));
    assert WellFormed(out) by { VersionTrimmed(); }
    CanonicalAlike(menus, c.roleMenuSets, out.menus, out.roleMenuSets);
    AcceptedAs(out, out);
    if Produces(out, again) {
      Acceptance(out, again);
      AcceptedAs(out, again.catalog);
      var others :| CleansAll(out.menus, others) && again.catalog == Canonical(others, out.roleMenuSets);
      CleanListFixed(out.menus, others);
    }
  }

  lemma VersionTrimmed()
    ensures Trim(NAVIGATION_CONTRACT_VERSION) == NAVIGATION_CONTRACT_VERSION
  {
  }

  // ----- Input order -----

  function InsertAt<T>(s: seq<T>, j: nat, x: T): (r: seq<T>)
    requires j <= |s|
    ensures multiset(r) == multiset{x} + multiset(s)
  {
    MultisetMiddle(s[..j], x, s[j..]);
    assert s == s[..j] + s[j..];
    s[..j] + ([x] + s[j..])
  }

  lemma CleanedInsert(raw: seq<Menu>, j: nat, rest: seq<Menu>, n: Menu)
    requires j < |raw| && CleansAll(Drop(raw, j), rest) && CleansTo(raw[j], n)
    ensures CleansAll(raw, InsertAt(rest, j, n))
  {
    hide CleansTo;
    var all := InsertAt(rest, j, n);
    forall i | 0 <= i < |raw|
      ensures CleansTo(raw[i], all[i])
    {
      if i < j {
        assert Drop(raw, j)[i] == raw[i] && all[i] == rest[i];
      } else if i > j {
        assert Drop(raw, j)[i - 1] == raw[i] && all[i] == rest[i - 1];
      }
    }
  }

  /** Cleaned menus follow their raw menus through a rearrangement. */
  lemma {:induction false} CleanedPermuted(raw: seq<Menu>, menus: seq<Menu>, other: seq<Menu>)
    returns (cleaned: seq<Menu>)
    requires CleansAll(raw, menus) && multiset(raw) == multiset(other)
    ensures CleansAll(other, cleaned) && multiset(cleaned) == multiset(menus)
  {
    hide CleansTo;
    SameMembers(raw, other);
    if raw == [] {
      cleaned := [];
    } else {
      assert raw[0] in other;
      var j: nat :| j < |other| && other[j] == raw[0];
      DropMultiset(raw, other, j);
      var rest := CleanedPermuted(raw[1..], menus[1..], Drop(other, j));
      CleanedInsert(other, j, rest, menus[0]);
      MultisetStep(menus);
      hide CleansAll, InsertAt, Drop;
      cleaned := InsertAt(rest, j, menus[0]);
    }
  }

  /** The order in which menus and role sets are written changes neither acceptance nor what may come out. */
  lemma OrderIndependent(a: Catalog, b: Catalog, out: Catalog)
    requires a.contractVersion == b.contractVersion
    requires multiset(a.menus) == multiset(b.menus) && multiset(a.roleMenuSets) == multiset(b.roleMenuSets)
    ensures Produces(a, Accepted(out)) <==> Produces(b, Accepted(out))
  {
    hide Produces;
    if Produces(a, Accepted(out)) {
      OrderCarries(a, b, out);
    }
    if Produces(b, Accepted(out)) {
      OrderCarries(b, a, out);
    }
  }

  lemma OrderCarries(a: Catalog, b: Catalog, out: Catalog)
    requires a.contractVersion == b.contractVersion
    requires multiset(a.menus) == multiset(b.menus) && multiset(a.roleMenuSets) == multiset(b.roleMenuSets)
    requires Produces(a, Accepted(out))
    ensures Produces(b, Accepted(out))
  {
    hide Produces, Map, CleanSet, CleansAll, WellFormedMenus, WellFormedSets, NoDuplicates, Canonical, KeysOf;
    AcceptedAs(a, out);
    var menus :| CleansAll(a.menus, menus) && out == Canonical(menus, a.roleMenuSets);
    WellFormedKeys(a, menus);
    var others := CleanedPermuted(a.menus, menus, b.menus);
    MapPermuted(CleanSet, a.roleMenuSets, b.roleMenuSets);
    MapPermuted(TrimMenu, a.menus, b.menus);
    WellFormedPermuted(Map(TrimMenu, a.menus), Map(TrimMenu, b.menus));
    WellFormedSetsPermuted(Map(CleanSet, a.roleMenuSets), Map(CleanSet, b.roleMenuSets),
        KeysOf(Map(TrimMenu, a.menus)));
    CanonicalAlike(menus, a.roleMenuSets, others, b.roleMenuSets);
    AcceptedAs(b, out);
  }

  // ----- When two catalogs share a normal form -----

  /** Every locale offered by the first is offered by the second too, with a value in common. */
  ghost predicate SharesLabels(texts: map<string, string>, others: map<string, string>) {
    forall raw | Labelled(texts, raw) :: exists v :: Offers(texts, Trim(raw), v) && Offers(others, Trim(raw), v)
  }

  /** The same menu up to surrounding white space: for menus without colliding locales, the very same labels. */
  ghost predicate SameMenu(m: Menu, n: Menu) {
    && TrimMenu(m).(labels := map[]) == TrimMenu(n).(labels := map[])
    && SharesLabels(m.labels, n.labels) && SharesLabels(n.labels, m.labels)
  }

  /** The same role up to surrounding white space, with the same menus in any order and number. */
  ghost predicate SameRole(s: RoleMenuSet, t: RoleMenuSet) {
    Trim(s.roleKey) == Trim(t.roleKey) && forall k :: Mentions(s, k) <==> Mentions(t, k)
  }

  /** The same entries in some order. */
  ghost predicate SameEntries(a: Catalog, b: Catalog) {
    Reordered(SameMenu, a.menus, b.menus) && Reordered(SameRole, a.roleMenuSets, b.roleMenuSets)
  }

  ghost function Locales(texts: map<string, string>): set<string> {
    set raw | raw in texts && Labelled(texts, raw) :: Trim(raw)
  }

  lemma OfferedLocale(texts: map<string, string>, l: string)
    ensures l in Locales(texts) <==> exists v :: Offers(texts, l, v)
  {
    hide Trim;
    if l in Locales(texts) {
      var raw :| raw in texts && Labelled(texts, raw) && Trim(raw) == l;
      assert Offers(texts, l, Trim(texts[raw]));
    }
  }

  lemma SharesLocales(texts: map<string, string>, others: map<string, string>)
    ensures SharesLabels(texts, others) <==>
              forall l | l in Locales(texts) :: exists v :: Offers(texts, l, v) && Offers(others, l, v)
  {
    hide Trim, Offers;
    assert forall raw | Labelled(texts, raw) :: Trim(raw) in Locales(texts);
    if SharesLabels(texts, others) {
      forall l | l in Locales(texts)
        ensures exists v :: Offers(texts, l, v) && Offers(others, l, v)
      {
        var raw :| raw in texts && Labelled(texts, raw) && Trim(raw) == l;
      }
    }
  }

  lemma CleanedLocales(texts: map<string, string>, labels: map<string, string>)
    ensures CleanedTo(texts, labels) <==>
              labels.Keys == Locales(texts) && forall l | l in labels :: Offers(texts, l, labels[l])
  {
    hide Trim, Offers;
    forall l | l in labels && Offers(texts, l, labels[l])
      ensures l in Locales(texts)
    {
      OfferedLocale(texts, l);
    }
  }

  lemma CommonLabels(texts: map<string, string>, others: map<string, string>)
    ensures SharesLabels(texts, others) && SharesLabels(others, texts) <==>
              exists labels :: CleanedTo(texts, labels) && CleanedTo(others, labels)
  {
    hide Trim, Offers, Labelled, SharesLabels, CleanedTo, Locales;
    SharesLocales(texts, others);
    SharesLocales(others, texts);
    if SharesLabels(texts, others) && SharesLabels(others, texts) {
      forall l
        ensures l in Locales(texts) <==> l in Locales(others)
      {
        OfferedLocale(texts, l);
        OfferedLocale(others, l);
      }
      var labels := map l | l in Locales(texts) :: var v :| Offers(texts, l, v) && Offers(others, l, v); v;
      CleanedLocales(texts, labels);
      CleanedLocales(others, labels);
    }
    if labels :| CleanedTo(texts, labels) && CleanedTo(others, labels) {
      CleanedLocales(texts, labels);
      CleanedLocales(others, labels);
    }
  }

  /** Two menus are the same iff they may be cleaned to the same. */
  lemma SameMenuMeaning(m: Menu, n: Menu)
    ensures SameMenu(m, n) <==> exists k :: CleansTo(m, k) && CleansTo(n, k)
  {
    hide Trim, SharesLabels, CleanedTo;
    CommonLabels(m.labels, n.labels);
    if SameMenu(m, n) {
      var labels :| CleanedTo(m.labels, labels) && CleanedTo(n.labels, labels);
      var k := TrimMenu(m).(labels := labels);
      assert CleansTo(m, k) && CleansTo(n, k);
    }
  }

  lemma SameRoleMeaning(s: RoleMenuSet, t: RoleMenuSet)
    ensures SameRole(s, t) <==> CleanSet(s) == CleanSet(t)
  {
    hide Trim, Map, Mentions, CleanSet;
    CleanSetMentions(s);
    CleanSetMentions(t);
    if SameRole(s, t) {
      CleanSetMembers(s);
      CleanSetMembers(t);
      MenuKeysAsSet(s, t);
    }
  }

  lemma SameRoles(sets: seq<RoleMenuSet>, others: seq<RoleMenuSet>)
    ensures Reordered(SameRole, sets, others) <==> multiset(Map(CleanSet, sets)) == multiset(Map(CleanSet, others))
  {
    hide SameRole, CleanSet, Reordered, Map;
    forall s, t | s in sets && t in others
      ensures SameRole(s, t) <==> CleanSet(s) == CleanSet(t)
    {
      SameRoleMeaning(s, t);
    }
    ReorderedImages(SameRole, CleanSet, sets, others);
  }

  lemma SameMenusForth(raw: seq<Menu>, menus: seq<Menu>, other: seq<Menu>, cleaned: seq<Menu>)
    requires CleansAll(raw, menus) && CleansAll(other, cleaned) && multiset(menus) == multiset(cleaned)
    ensures Reordered(SameMenu, raw, other)
  {
    hide CleansTo, SameMenu, Reordered;
    forall i, j | 0 <= i < |raw| && 0 <= j < |other| && menus[i] == cleaned[j]
      ensures SameMenu(raw[i], other[j])
    {
      SameMenuMeaning(raw[i], other[j]);
    }
    ReorderedThrough(SameMenu, raw, menus, other, cleaned);
  }

  lemma CleanedFront(raw: seq<Menu>, rest: seq<Menu>, n: Menu)
    requires raw != [] && CleansAll(raw[1..], rest) && CleansTo(raw[0], n)
    ensures CleansAll(raw, [n] + rest)
  {
    hide CleansTo;
  }

  lemma {:induction false} SameMenusBack(raw: seq<Menu>, other: seq<Menu>)
    returns (menus: seq<Menu>, cleaned: seq<Menu>)
    requires Reordered(SameMenu, raw, other)
    ensures CleansAll(raw, menus) && CleansAll(other, cleaned) && multiset(menus) == multiset(cleaned)
  {
    hide CleansTo, SameMenu;
    if raw == [] {
      menus, cleaned := [], [];
    } else {
      var j: nat :| j < |other| && SameMenu(raw[0], other[j]) && Reordered(SameMenu, raw[1..], Drop(other, j));
      SameMenuMeaning(raw[0], other[j]);
      var k :| CleansTo(raw[0], k) && CleansTo(other[j], k);
      menus, cleaned := SameMenusBack(raw[1..], Drop(other, j));
      CleanedInsert(other, j, cleaned, k);
      CleanedFront(raw, menus, k);
      hide InsertAt, Drop, CleansAll, Reordered;
      menus, cleaned := [k] + menus, InsertAt(cleaned, j, k);
    }
  }

  /** Two catalogs can normalise to the same one exactly when both are well formed and have the same entries. */
  lemma OneNormalForm(a: Catalog, b: Catalog)
    ensures (exists out :: Produces(a, Accepted(out)) && Produces(b, Accepted(out))) <==>
              WellFormed(a) && WellFormed(b) && SameEntries(a, b)
  {
    hide Produces, Map, CleanSet, CleansAll, WellFormed, NoDuplicates, Canonical, KeysOf, Reordered, SameMenu, SameRole,
      WellFormedMenus;
    SameRoles(a.roleMenuSets, b.roleMenuSets);
    if out :| Produces(a, Accepted(out)) && Produces(b, Accepted(out)) {
      AcceptedAs(a, out);
      AcceptedAs(b, out);
      var menus :| CleansAll(a.menus, menus) && out == Canonical(menus, a.roleMenuSets);
      var others :| CleansAll(b.menus, others) && out == Canonical(others, b.roleMenuSets);
      WellFormedKeys(a, menus);
      CanonicalAlike(menus, a.roleMenuSets, others, b.roleMenuSets);
      SameMenusForth(a.menus, menus, b.menus, others);
    }
    if WellFormed(a) && WellFormed(b) && SameEntries(a, b) {
      var menus, others := SameMenusBack(a.menus, b.menus);
      WellFormedKeys(a, menus);
      CanonicalAlike(menus, a.roleMenuSets, others, b.roleMenuSets);
      var out := Canonical(menus, a.roleMenuSets);
      AcceptedAs(a, out);
      AcceptedAs(b, out);
    }
  }

  // ----- When the outcome is determined -----

  /** Labels whose trimmed locales collide say the same. */
  ghost predicate Determined(texts: map<string, string>) {
    forall l, v, w | Offers(texts, l, v) && Offers(texts, l, w) :: v == w
  }

  lemma DeterminedOnce(m: Menu, n: Menu, k: Menu)
    requires CleansTo(m, n) && CleansTo(m, k) && Determined(m.labels)
    ensures n == k
  {
    hide Trim;
    forall l
      ensures l in n.labels <==> l in k.labels
    {
      if l in n.labels {
        assert Offers(m.labels, l, n.labels[l]);
      }
      if l in k.labels {
        assert Offers(m.labels, l, k.labels[l]);
      }
    }
    forall l | l in n.labels
      ensures n.labels[l] == k.labels[l]
    {
      assert Offers(m.labels, l, n.labels[l]) && Offers(m.labels, l, k.labels[l]);
    }
    assert n.labels == k.labels;
  }

  ghost function SomeLabels(texts: map<string, string>): (labels: map<string, string>)
    ensures CleanedTo(texts, labels)
  {
    assert forall l | l in Locales(texts) :: exists v :: Offers(texts, l, v) by {
      forall l | l in Locales(texts)
        ensures exists v :: Offers(texts, l, v)
      {
        OfferedLocale(texts, l);
      }
    }
    var labels := map l | l in Locales(texts) :: var v :| Offers(texts, l, v); v;
    CleanedLocales(texts, labels);
    labels
  }

  lemma OtherLabel(texts: map<string, string>, labels: map<string, string>, l: string, v: string)
    requires CleanedTo(texts, labels) && Offers(texts, l, v)
    ensures CleanedTo(texts, labels[l := v])
  {
    hide Trim;
  }

  ghost function SomeMenu(m: Menu): (n: Menu)
    ensures CleansTo(m, n)
  {
    TrimMenu(m).(labels := SomeLabels(m.labels))
  }

  /** A menu with two different labels for a locale may be cleaned to two different menus. */
  lemma UndeterminedMenu(m: Menu) returns (n: Menu, k: Menu)
    requires !Determined(m.labels)
    ensures CleansTo(m, n) && CleansTo(m, k) && n != k && n.key == k.key
  {
    hide Trim, Offers, CleanedTo;
    var l, v, w :| Offers(m.labels, l, v) && Offers(m.labels, l, w) && v != w;
    var some := SomeLabels(m.labels);
    OtherLabel(m.labels, some, l, v);
    OtherLabel(m.labels, some, l, w);
    n, k := TrimMenu(m).(labels := some[l := v]), TrimMenu(m).(labels := some[l := w]);
    assert n.labels[l] != k.labels[l];
  }

  lemma UndeterminedLists(raw: seq<Menu>, i: nat) returns (menus: seq<Menu>, others: seq<Menu>)
    requires i < |raw| && !Determined(raw[i].labels)
    ensures CleansAll(raw, menus) && CleansAll(raw, others)
    ensures menus[i].key == others[i].key && menus[i] != others[i]
  {
    hide SomeMenu, CleansTo, Determined;
    var n, k := UndeterminedMenu(raw[i]);
    var all := Map(SomeMenu, raw);
    menus, others := all[i := n], all[i := k];
  }

  /** An undetermined menu of a well-formed catalog can be seen in the output. */
  lemma UndeterminedShows(c: Catalog, i: nat) returns (out: Catalog, other: Catalog)
    requires WellFormed(c) && i < |c.menus| && !Determined(c.menus[i].labels)
    ensures Produces(c, Accepted(out)) && Produces(c, Accepted(other)) && out != other
  {
    hide Produces, Map, CleanSet, WellFormed, NoDuplicates, Canonical, WellFormedMenus, CleansTo, Determined, KeysOf,
      KeysDistinct;
    var menus, others := UndeterminedLists(c.menus, i);
    WellFormedKeys(c, menus);
    OneApart(menus, others, i);
    hide CleansAll;
    CanonicalAlike(menus, c.roleMenuSets, others, c.roleMenuSets);
    out, other := Canonical(menus, c.roleMenuSets), Canonical(others, c.roleMenuSets);
    AcceptedAs(c, out);
    AcceptedAs(c, other);
  }

  lemma OneApart(menus: seq<Menu>, others: seq<Menu>, i: nat)
    requires KeysDistinct(menus) && |others| == |menus| && i < |menus|
    requires others[i].key == menus[i].key && others[i] != menus[i]
    ensures multiset(menus) != multiset(others)
  {
    forall j | 0 <= j < |menus|
      ensures menus[j] != others[i]
    {
      assert j == i || Map(MenuKey, menus)[j] != Map(MenuKey, menus)[i];
    }
    assert others[i] in multiset(others) && others[i] !in multiset(menus);
  }

  lemma {:induction false} TwinsParents(menus: seq<Menu>, others: seq<Menu>, known: set<string>)
    requires Twins(menus, others)
    ensures ParentComplaint(menus, known) == ParentComplaint(others, known)
  {
    hide HasLabel;
    if menus != [] {
      TwinsParents(menus[1..], others[1..], known);
    }
  }

  lemma {:induction false} TwinsCycles(menus: seq<Menu>, others: seq<Menu>, parents: map<string, string>)
    requires Twins(menus, others)
    ensures CycleComplaint(menus, parents) == CycleComplaint(others, parents)
  {
    hide HasLabel, Revisits;
    if menus != [] {
      TwinsCycles(menus[1..], others[1..], parents);
    }
  }

  lemma {:induction false} TwinsTable(menus: seq<Menu>, others: seq<Menu>)
    requires Twins(menus, others)
    ensures ParentsOf(menus) == ParentsOf(others)
  {
    hide HasLabel;
    if menus != [] {
      TwinsTable(menus[..|menus| - 1], others[..|others| - 1]);
    }
  }

  /** A refusal does not depend on how colliding locales fall. */
  lemma RefusedAlike(raw: seq<Menu>, menus: seq<Menu>, others: seq<Menu>, sets: seq<RoleMenuSet>)
    requires CleansAll(raw, menus) && CleansAll(raw, others) && Finished(menus, sets).Refused?
    ensures Finished(others, sets) == Finished(menus, sets)
  {
    hide CleansTo, HasLabel, Map, KeysOf, ParentComplaint, CycleComplaint, SetComplaint, ParentsOf;
    CleanedTwins(raw, menus);
    CleanedTwins(raw, others);
    assert Twins(menus, others);
    TwinsKeys(menus, others);
    TwinsParents(menus, others, KeysOf(menus));
    TwinsTable(menus, others);
    TwinsCycles(menus, others, ParentsOf(menus));
  }

  /** A catalog has one possible outcome exactly when it is refused or no menu has two different labels for one trimmed
      locale. */
  lemma OutcomeUnique(c: Catalog)
    ensures (forall o, p | Produces(c, o) && Produces(c, p) :: o == p) <==>
              (WellFormed(c) ==> forall m | m in c.menus :: Determined(m.labels))
  {
    hide Produces, WellFormed, Determined;
    if WellFormed(c) && exists m | m in c.menus :: !Determined(m.labels) {
      var i: nat :| i < |c.menus| && !Determined(c.menus[i].labels);
      var out, other := UndeterminedShows(c, i);
    } else {
      forall o, p | Produces(c, o) && Produces(c, p)
        ensures o == p
      {
        Acceptance(c, o);
        if WellFormed(c) {
          DeterminedOutcome(c, o, p);
        } else {
          RefusedOutcome(c, o, p);
        }
      }
    }
  }

  lemma RefusedOutcome(c: Catalog, o: Outcome, p: Outcome)
    requires Produces(c, o) && Produces(c, p) && o.Refused?
    ensures o == p
  {
    hide CleansAll, Finished, MenuComplaint, Trim;
    if Trim(c.contractVersion) == NAVIGATION_CONTRACT_VERSION && MenuComplaint(c.menus, {}).None? {
      var menus :| CleansAll(c.menus, menus) && o == Finished(menus, c.roleMenuSets);
      var others :| CleansAll(c.menus, others) && p == Finished(others, c.roleMenuSets);
      RefusedAlike(c.menus, menus, others, c.roleMenuSets);
    }
  }

  lemma DeterminedOutcome(c: Catalog, o: Outcome, p: Outcome)
    requires Produces(c, o) && Produces(c, p) && forall m | m in c.menus :: Determined(m.labels)
    requires o.Accepted?
    ensures o == p
  {
    hide CleansTo, Finished, MenuComplaint, Determined;
    var menus :| CleansAll(c.menus, menus) && o == Finished(menus, c.roleMenuSets);
    var others :| CleansAll(c.menus, others) && p == Finished(others, c.roleMenuSets);
    forall i | 0 <= i < |c.menus|
      ensures menus[i] == others[i]
    {
      DeterminedOnce(c.menus[i], menus[i], others[i]);
    }
    assert menus == others;
  }

  /** `a` stands strictly before `b` in a menu. */
  predicate Before(a: Menu, b: Menu) {
    a.sortOrder < b.sortOrder || (a.sortOrder == b.sortOrder && a.key != b.key && StringLeq(a.key, b.key))
  }

  predicate MenusInOrder(menus: seq<Menu>) {
    forall i, j | 0 <= i < j < |menus| :: Before(menus[i], menus[j])
  }

  /** Roles strictly in order, and the menu keys of each strictly in order. */
  ghost predicate RolesInOrder(sets: seq<RoleMenuSet>) {
    && (forall i, j | 0 <= i < j < |sets| ::
          sets[i].roleKey != sets[j].roleKey && StringLeq(sets[i].roleKey, sets[j].roleKey))
    && (forall s | s in sets :: NoDuplicates(s.menuKeys) && Sorted(StringLeq, s.menuKeys))
  }

  ghost predicate Mentions(s: RoleMenuSet, k: string) {
    exists raw | raw in s.menuKeys :: Trim(raw) == k
  }

  /** The trimmed role with the trimmed menu keys it mentions. */
  ghost predicate SetCleansTo(s: RoleMenuSet, t: RoleMenuSet) {
    t.roleKey == Trim(s.roleKey) && forall k :: k in t.menuKeys <==> Mentions(s, k)
  }

  lemma CleanSetMentions(s: RoleMenuSet)
    ensures SetCleansTo(s, CleanSet(s))
  {
    hide Trim, Map;
    CleanSetMembers(s);
    MapMembers(Trim, s.menuKeys);
  }

  /** The output is a rearrangement of the cleaned entries: menus by sort order and then by key, roles and menu keys by
      name, all strictly. */
  lemma OutputOrdered(c: Catalog, out: Catalog)
    requires Produces(c, Accepted(out))
    ensures Reordered(CleansTo, c.menus, out.menus) && MenusInOrder(out.menus)
    ensures Reordered(SetCleansTo, c.roleMenuSets, out.roleMenuSets) && RolesInOrder(out.roleMenuSets)
  {
    hide Map, CleansTo, CleanSet, Sort, Produces, MenusInOrder, RolesInOrder, NoDuplicates, WellFormedMenus,
      SetCleansTo, Reordered, KeysOf, WellFormedSets;
    AcceptedAs(c, out);
    var menus :| CleansAll(c.menus, menus) && out == Canonical(menus, c.roleMenuSets);
    WellFormedKeys(c, menus);
    SortMenus(menus);
    SortRoles(c.roleMenuSets);
    ReorderedThrough(CleansTo, c.menus, menus, out.menus, out.menus);
    var sets := Map(CleanSet, c.roleMenuSets);
    forall i, j | 0 <= i < |sets| && 0 <= j < |out.roleMenuSets| && sets[i] == out.roleMenuSets[j]
      ensures SetCleansTo(c.roleMenuSets[i], out.roleMenuSets[j])
    {
      CleanSetMentions(c.roleMenuSets[i]);
    }
    ReorderedThrough(SetCleansTo, c.roleMenuSets, sets, out.roleMenuSets, out.roleMenuSets);
  }

  lemma SortMenus(menus: seq<Menu>)
    requires KeysDistinct(menus)
    ensures MenusInOrder(Sort(MenuLeq, menus))
  {
    hide Map, Sort, StringLeq;
    var out := Sort(MenuLeq, menus);
    MenusOrdered();
    SortSorted(MenuLeq, menus);
    MapPermuted(MenuKey, menus, out);
    NoDuplicatesPermuted(Map(MenuKey, menus), Map(MenuKey, out));
    forall i, j | 0 <= i < j < |out|
      ensures Before(out[i], out[j])
    {
      assert Map(MenuKey, out)[i] != Map(MenuKey, out)[j];
    }
  }

  lemma SortRoles(raw: seq<RoleMenuSet>)
    requires NoDuplicates(Map(SetRole, Map(CleanSet, raw)))
    ensures RolesInOrder(Sort(SetLeq, Map(CleanSet, raw)))
  {
    hide Map, Sort, StringLeq, CleanedKeys, Trim;
    var sets := Map(CleanSet, raw);
    var out := Sort(SetLeq, sets);
    MenusOrdered();
    SortSorted(SetLeq, sets);
    SameMembers(out, sets);
    MapPermuted(SetRole, sets, out);
    NoDuplicatesPermuted(Map(SetRole, sets), Map(SetRole, out));
    forall i, j | 0 <= i < j < |out|
      ensures out[i].roleKey != out[j].roleKey && StringLeq(out[i].roleKey, out[j].roleKey)
    {
      assert Map(SetRole, out)[i] != Map(SetRole, out)[j];
    }
    forall s | s in out
      ensures NoDuplicates(s.menuKeys) && Sorted(StringLeq, s.menuKeys)
    {
      var i :| 0 <= i < |sets| && sets[i] == s;
      CleanSetMembers(raw[i]);
      StringOrder();
      SortSorted(StringLeq, CleanedKeys(raw[i].menuKeys));
    }
  }
}
