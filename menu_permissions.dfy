/** The in-memory work of the menu permission routes
    (src/routes/menuPermissions.js), once the database rows are in hand:
    grouping permission rows into a menu -> role -> can-view map and
    attaching it to the menu items (GET /menu-items), and merging the
    parent, additional-parent and child rows of one role, with the
    duplicate-free parent id lists built from JavaScript Sets
    (GET /menu-items/:roleName). */
module MenuPermissions {
  import opened Text

  /** An active menu item as the queries select it. */
  datatype MenuItem = MenuItem(menuId: int, menuLabel: string, icon: string, href: string,
                               parentId: Option<int>, sortOrder: int)

  /** One row of the permission query: a menu item crossed with a role. The
      menu id comes from the left-joined permission table, so it is absent
      when the role has no permission row for the item; can-view is false
      then. */
  datatype PermissionRow = PermissionRow(menuId: Option<int>, roleName: string, canView: bool)

  /** A menu item with its role -> can-view map. */
  datatype ItemWithPermissions = ItemWithPermissions(item: MenuItem, permissions: map<string, bool>)

  /** A menu item row of the per-role queries, with its can-view flag. */
  datatype RoleRow = RoleRow(item: MenuItem, canView: bool)

  type PermissionsMap = map<Option<int>, map<string, bool>>

  // ---------------------------------------------------------------------------
  // Grouping the permission rows (GET /menu-items)

  /** The permissions map after all rows, in order: each row creates the
      entry of its menu id when missing and sets its role's flag, a later row
      for the same menu and role overwriting an earlier one. A menu id has an
      entry exactly when some row carries it. */
  function Group(rows: seq<PermissionRow>): (g: PermissionsMap)
    ensures g.Keys == set i | 0 <= i < |rows| :: rows[i].menuId
  {
    if rows == [] then map[]
    else
      var g := Group(rows[..|rows| - 1]);
      var row := rows[|rows| - 1];
      var roles := if row.menuId in g then g[row.menuId] else map[];
      g[row.menuId := roles[row.roleName := row.canView]]
  }

  /** The flag a map holds for a menu and a role, if any. */
  function Lookup(permissionsMap: PermissionsMap, menuId: Option<int>, roleName: string): Option<bool> {
    if menuId in permissionsMap && roleName in permissionsMap[menuId]
    then Some(permissionsMap[menuId][roleName])
    else None
  }

  /** The flag of the last row for a menu and a role, if any row has them. */
  function LastCanView(rows: seq<PermissionRow>, menuId: Option<int>, roleName: string): Option<bool> {
    if rows == [] then None
    else
      var row := rows[|rows| - 1];
      if row.menuId == menuId && row.roleName == roleName then Some(row.canView)
      else LastCanView(rows[..|rows| - 1], menuId, roleName)
  }

  /** Filling the permissions map row by row (`permissions.forEach`). */
  method BuildPermissionsMap(permissions: seq<PermissionRow>) returns (permissionsMap: PermissionsMap)
    ensures permissionsMap == Group(permissions)
    ensures forall m :: m in permissionsMap <==> exists i :: 0 <= i < |permissions| && permissions[i].menuId == m
  {
    permissionsMap := map[];
    var i := 0;
    while i < |permissions|
      invariant 0 <= i <= |permissions|
      invariant permissionsMap == Group(permissions[..i])
    {
      var perm := permissions[i];
      ghost var roles := if perm.menuId in permissionsMap then permissionsMap[perm.menuId] else map[];
      ghost var before := permissionsMap;
      if perm.menuId !in permissionsMap {
        permissionsMap := permissionsMap[perm.menuId := map[]];
      }
      permissionsMap := permissionsMap[perm.menuId := permissionsMap[perm.menuId][perm.roleName := perm.canView]];
      assert permissionsMap == before[perm.menuId := roles[perm.roleName := perm.canView]];
      assert permissions[..i + 1] == permissions[..i] + [perm];
      GroupSnoc(permissions[..i], perm);
      i := i + 1;
    }
    assert permissions[..i] == permissions;
    ghost var keys := set i | 0 <= i < |permissions| :: permissions[i].menuId;
    assert permissionsMap.Keys == keys;
    forall m ensures m in permissionsMap <==> exists i :: 0 <= i < |permissions| && permissions[i].menuId == m {
      if m in keys {
        var k :| 0 <= k < |permissions| && permissions[k].menuId == m;
      }
    }
  }

  /** Group after one more row. */
  lemma GroupSnoc(rows: seq<PermissionRow>, row: PermissionRow)
    ensures var g := Group(rows);
      var roles := if row.menuId in g then g[row.menuId] else map[];
      Group(rows + [row]) == g[row.menuId := roles[row.roleName := row.canView]]
  {
    assert (rows + [row])[..|rows|] == rows;
  }

  /** One more row sets the flag of its own menu and role and changes no
      other flag. */
  lemma GroupStep(rows: seq<PermissionRow>, row: PermissionRow, menuId: Option<int>, roleName: string)
    ensures Lookup(Group(rows + [row]), menuId, roleName)
         == if menuId == row.menuId && roleName == row.roleName then Some(row.canView)
            else Lookup(Group(rows), menuId, roleName)
  {
    assert (rows + [row])[..|rows + [row]| - 1] == rows;
  }

  /** The map holds, for every menu and role, the flag of the last row with
      that menu and role, and nothing for a pair no row has. */
  lemma {:induction false} GroupLookup(rows: seq<PermissionRow>, menuId: Option<int>, roleName: string)
    ensures Lookup(Group(rows), menuId, roleName) == LastCanView(rows, menuId, roleName)
  {
    if rows != [] {
      var init := rows[..|rows| - 1];
      GroupLookup(init, menuId, roleName);
      assert init + [rows[|rows| - 1]] == rows;
      GroupStep(init, rows[|rows| - 1], menuId, roleName);
    }
  }

  /** LastCanView finds the last row for the pair: it is absent exactly when
      no row has the pair, and otherwise it is the flag of a row with the
      pair after which no row has it. */
  lemma {:induction false} LastCanViewIsLastRow(rows: seq<PermissionRow>, menuId: Option<int>, roleName: string)
    returns (i: int)
    ensures LastCanView(rows, menuId, roleName).None? <==>
      forall j :: 0 <= j < |rows| ==> !(rows[j].menuId == menuId && rows[j].roleName == roleName)
    ensures LastCanView(rows, menuId, roleName).Some? ==>
      && 0 <= i < |rows|
      && rows[i].menuId == menuId && rows[i].roleName == roleName
      && LastCanView(rows, menuId, roleName).value == rows[i].canView
      && forall j :: i < j < |rows| ==> !(rows[j].menuId == menuId && rows[j].roleName == roleName)
  {
    if rows == [] {
      i := -1;
    } else {
      var init := rows[..|rows| - 1];
      var last := rows[|rows| - 1];
      if last.menuId == menuId && last.roleName == roleName {
        i := |rows| - 1;
      } else {
        i := LastCanViewIsLastRow(init, menuId, roleName);
        assert forall j :: 0 <= j < |init| ==> init[j] == rows[j];
      }
    }
  }

  // ---------------------------------------------------------------------------
  // Attaching permissions to the menu items

  /** The permissions of one menu item: its map entry, or an empty map. */
  function PermissionsOf(permissionsMap: PermissionsMap, menuId: int): map<string, bool> {
    if Some(menuId) in permissionsMap then permissionsMap[Some(menuId)] else map[]
  }

  /** Every menu item with its permissions (`menuItems.map`). */
  function AttachPermissions(items: seq<MenuItem>, permissionsMap: PermissionsMap): (r: seq<ItemWithPermissions>)
    ensures |r| == |items|
    ensures forall i :: 0 <= i < |items| ==> r[i].item == items[i]
    ensures forall i :: 0 <= i < |items| ==> r[i].permissions == PermissionsOf(permissionsMap, items[i].menuId)
  {
    if items == [] then []
    else [ItemWithPermissions(items[0], PermissionsOf(permissionsMap, items[0].menuId))]
         + AttachPermissions(items[1..], permissionsMap)
  }

  /** The data of GET /menu-items: the active menu items, in their order,
      with the grouped permissions. */
  function MenuItemsWithPermissions(items: seq<MenuItem>, permissions: seq<PermissionRow>): seq<ItemWithPermissions> {
    AttachPermissions(items, Group(permissions))
  }

  /** The in-memory part of GET /menu-items: group, then attach. */
  method ListMenuItems(items: seq<MenuItem>, permissions: seq<PermissionRow>) returns (result: seq<ItemWithPermissions>)
    ensures result == MenuItemsWithPermissions(items, permissions)
  {
    var permissionsMap := BuildPermissionsMap(permissions);
    result := AttachPermissions(items, permissionsMap);
  }

  /** Each entry of GET /menu-items is its menu item, and holds a role's flag
      exactly when some permission row has the item and the role, the flag
      being that of the last such row. */
  lemma ItemPermissions(items: seq<MenuItem>, permissions: seq<PermissionRow>, i: nat, roleName: string)
    requires i < |items|
    ensures var entry := MenuItemsWithPermissions(items, permissions)[i];
      && entry.item == items[i]
      && (roleName in entry.permissions <==>
          exists j :: 0 <= j < |permissions| && permissions[j].menuId == Some(items[i].menuId)
                                             && permissions[j].roleName == roleName)
      && (roleName in entry.permissions ==>
          Some(entry.permissions[roleName]) == LastCanView(permissions, Some(items[i].menuId), roleName))
  {
    GroupLookup(permissions, Some(items[i].menuId), roleName);
    var _ := LastCanViewIsLastRow(permissions, Some(items[i].menuId), roleName);
  }

  // ---------------------------------------------------------------------------
  // Duplicate-free id lists (`[...new Set(ids)]`)

  predicate NoDuplicates(s: seq<int>) {
    forall i, j :: 0 <= i < j < |s| ==> s[i] != s[j]
  }

  /** The values of a list, each once, in the order of their first
      occurrence: what spreading a Set built from the list gives. */
  function Distinct(xs: seq<int>): (d: seq<int>)
    ensures |d| <= |xs|
  {
    if xs == [] then []
    else
      var d := Distinct(xs[..|xs| - 1]);
      var x := xs[|xs| - 1];
      if x in xs[..|xs| - 1] then d else d + [x]
  }

  /** Distinct keeps every value of the list and adds none. */
  lemma {:induction false} DistinctMembers(xs: seq<int>)
    ensures forall x :: x in Distinct(xs) <==> x in xs
  {
    if xs != [] {
      var init := xs[..|xs| - 1];
      DistinctMembers(init);
      assert xs == init + [xs[|xs| - 1]];
    }
  }

  lemma DistinctKeeps(xs: seq<int>, x: int)
    requires x in xs
    ensures x in Distinct(xs)
  {
    DistinctMembers(xs);
  }

  /** Distinct lists each value once. */
  lemma {:induction false} DistinctNoDuplicates(xs: seq<int>)
    ensures NoDuplicates(Distinct(xs))
  {
    if xs != [] {
      var init := xs[..|xs| - 1];
      DistinctNoDuplicates(init);
      DistinctMembers(init);
    }
  }

  /** Where a value first occurs in a list. */
  function FirstIndex(xs: seq<int>, x: int): (k: nat)
    requires x in xs
    ensures k < |xs| && xs[k] == x && x !in xs[..k]
  {
    if x in xs[..|xs| - 1] then FirstIndex(xs[..|xs| - 1], x) else |xs| - 1
  }

  /** Distinct lists the values in the order of their first occurrence. */
  lemma {:induction false} DistinctOrder(xs: seq<int>)
    ensures forall x :: x in Distinct(xs) ==> x in xs
    ensures forall i, j :: 0 <= i < j < |Distinct(xs)| ==>
      FirstIndex(xs, Distinct(xs)[i]) < FirstIndex(xs, Distinct(xs)[j])
  {
    if xs != [] {
      var init := xs[..|xs| - 1];
      var x := xs[|xs| - 1];
      DistinctOrder(init);
      DistinctMembers(init);
      DistinctMembers(xs);
      var d := Distinct(xs);
      forall i, j | 0 <= i < j < |d|
        ensures FirstIndex(xs, d[i]) < FirstIndex(xs, d[j])
      {
        assert d[i] in init;
        if j < |Distinct(init)| {
          assert d[j] in init;
        } else {
          assert d[j] == x && x !in init;
        }
      }
    }
  }

  /** A list without duplicates is its own Distinct. */
  lemma {:induction false} DistinctOfDistinct(xs: seq<int>)
    requires NoDuplicates(xs)
    ensures Distinct(xs) == xs
  {
    if xs != [] {
      var init := xs[..|xs| - 1];
      DistinctOfDistinct(init);
      assert xs[|xs| - 1] !in init;
      assert init + [xs[|xs| - 1]] == xs;
    }
  }

  /** The values of a list not in a second list, in order. */
  function Without(xs: seq<int>, excluded: seq<int>): (r: seq<int>)
    ensures |r| <= |xs|
  {
    if xs == [] then []
    else
      var x := xs[|xs| - 1];
      Without(xs[..|xs| - 1], excluded) + (if x in excluded then [] else [x])
  }

  /** Without keeps exactly the values that are not excluded. */
  lemma {:induction false} WithoutMembers(xs: seq<int>, excluded: seq<int>)
    ensures forall x :: x in Without(xs, excluded) <==> x in xs && x !in excluded
  {
    if xs != [] {
      var init := xs[..|xs| - 1];
      WithoutMembers(init, excluded);
      assert xs == init + [xs[|xs| - 1]];
    }
  }

  /** Removing values keeps a list free of duplicates. */
  lemma {:induction false} WithoutNoDuplicates(xs: seq<int>, excluded: seq<int>)
    requires NoDuplicates(xs)
    ensures NoDuplicates(Without(xs, excluded))
  {
    if xs != [] {
      var init := xs[..|xs| - 1];
      assert NoDuplicates(init);
      WithoutNoDuplicates(init, excluded);
      WithoutMembers(init, excluded);
      assert xs[|xs| - 1] !in init;
    }
  }

  /** The distinct values of a concatenation: those of the first list, then
      the distinct values of the second list that are not in the first. */
  lemma {:induction false} DistinctAppend(a: seq<int>, b: seq<int>)
    ensures Distinct(a + b) == Distinct(a) + Without(Distinct(b), a)
  {
    if b == [] {
      assert a + b == a;
    } else {
      var b', x := b[..|b| - 1], b[|b| - 1];
      DistinctAppend(a, b');
      assert b == b' + [x];
      DistinctAppendStep(a, b', x);
    }
  }

  /** One step of DistinctAppend: a value added at the end of `b`. */
  lemma DistinctAppendStep(a: seq<int>, b: seq<int>, x: int)
    requires Distinct(a + b) == Distinct(a) + Without(Distinct(b), a)
    ensures Distinct(a + (b + [x])) == Distinct(a) + Without(Distinct(b + [x]), a)
  {
    var ab := a + b;
    assert a + (b + [x]) == ab + [x];
    DistinctSnoc(ab, x);
    DistinctSnoc(b, x);
    assert x in ab <==> x in a || x in b;
    var db := Distinct(b);
    if x !in b {
      WithoutSnoc(db, x, a);
      if x !in a {
        AppendAssoc(Distinct(a), Without(db, a), x);
      }
    }
  }

  lemma AppendAssoc(s: seq<int>, t: seq<int>, x: int)
    ensures (s + t) + [x] == s + (t + [x])
  {
  }

  /** Distinct of a list with one more value. */
  lemma DistinctSnoc(xs: seq<int>, x: int)
    ensures Distinct(xs + [x]) == if x in xs then Distinct(xs) else Distinct(xs) + [x]
  {
    assert (xs + [x])[..|xs|] == xs;
  }

  /** Without of a list with one more value. */
  lemma WithoutSnoc(xs: seq<int>, x: int, excluded: seq<int>)
    ensures Without(xs + [x], excluded) == Without(xs, excluded) + (if x in excluded then [] else [x])
  {
    assert (xs + [x])[..|xs|] == xs;
  }

  // ---------------------------------------------------------------------------
  // The rows of one role (GET /menu-items/:roleName)

  function MenuIds(rows: seq<RoleRow>): (ids: seq<int>)
    ensures |ids| == |rows|
    ensures forall i :: 0 <= i < |rows| ==> ids[i] == rows[i].item.menuId
  {
    if rows == [] then [] else [rows[0].item.menuId] + MenuIds(rows[1..])
  }

  /** The parent ids of rows that all have one (the visible-children query
      selects only items with a parent). */
  function ParentIds(rows: seq<RoleRow>): (ids: seq<int>)
    requires forall i :: 0 <= i < |rows| ==> rows[i].item.parentId.Some?
    ensures |ids| == |rows|
    ensures forall i :: 0 <= i < |rows| ==> ids[i] == rows[i].item.parentId.value
  {
    if rows == [] then [] else [rows[0].item.parentId.value] + ParentIds(rows[1..])
  }

  /** `visibleChildParentIds`: each parent of a visible child once, in the
      order of first occurrence. */
  function VisibleChildParentIds(visibleChildRows: seq<RoleRow>): (ids: seq<int>)
    requires forall i :: 0 <= i < |visibleChildRows| ==> visibleChildRows[i].item.parentId.Some?
    ensures NoDuplicates(ids)
    ensures forall x :: x in ids <==>
      exists i :: 0 <= i < |visibleChildRows| && visibleChildRows[i].item.parentId == Some(x)
  {
    var parents := ParentIds(visibleChildRows);
    DistinctNoDuplicates(parents);
    DistinctMembers(parents);
    assert forall x :: x in parents <==>
      exists i :: 0 <= i < |visibleChildRows| && visibleChildRows[i].item.parentId == Some(x) by {
      forall x | x in parents
        ensures exists i :: 0 <= i < |visibleChildRows| && visibleChildRows[i].item.parentId == Some(x)
      {
        var i :| 0 <= i < |parents| && parents[i] == x;
      }
    }
    Distinct(parents)
  }

  /** `allParentIds`: the ids of the visible parents and the parents of
      visible children, each once. */
  function AllParentIds(parentRows: seq<RoleRow>, visibleChildParentIds: seq<int>): (ids: seq<int>)
    ensures NoDuplicates(ids)
    ensures forall x :: x in ids <==> x in MenuIds(parentRows) || x in visibleChildParentIds
  {
    var both := MenuIds(parentRows) + visibleChildParentIds;
    DistinctNoDuplicates(both);
    DistinctMembers(both);
    Distinct(both)
  }

  /** allParentIds lists the distinct parent-row ids first, then the parents
      of visible children that are not parent rows, in their order. */
  lemma AllParentIdsParentsFirst(parentRows: seq<RoleRow>, visibleChildRows: seq<RoleRow>)
    requires forall i :: 0 <= i < |visibleChildRows| ==> visibleChildRows[i].item.parentId.Some?
    ensures var visible := VisibleChildParentIds(visibleChildRows);
      AllParentIds(parentRows, visible) == Distinct(MenuIds(parentRows)) + Without(visible, MenuIds(parentRows))
  {
    var visible := VisibleChildParentIds(visibleChildRows);
    DistinctAppend(MenuIds(parentRows), visible);
    DistinctNoDuplicates(ParentIds(visibleChildRows));
    DistinctOfDistinct(visible);
  }

  /** A query on a list of ids runs only when the list is not empty; its rows
      are `fetched`, and nothing otherwise. */
  function RunIfAny(ids: seq<int>, fetched: seq<RoleRow>): (rows: seq<RoleRow>)
    ensures ids == [] ==> rows == []
    ensures ids != [] ==> rows == fetched
  {
    if |ids| > 0 then fetched else []
  }

  /** `parentRows.some(p => p.menu_id === row.menu_id)`. */
  predicate AmongParents(row: RoleRow, parentRows: seq<RoleRow>) {
    exists p :: p in parentRows && p.item.menuId == row.item.menuId
  }

  /** The additional parents whose menu id is not one of the parent rows', in
      their order. */
  function NewParents(additionalParentRows: seq<RoleRow>, parentRows: seq<RoleRow>): (r: seq<RoleRow>)
    ensures |r| <= |additionalParentRows|
    ensures forall row :: row in r <==> row in additionalParentRows && !AmongParents(row, parentRows)
  {
    if additionalParentRows == [] then []
    else
      var row := additionalParentRows[|additionalParentRows| - 1];
      NewParents(additionalParentRows[..|additionalParentRows| - 1], parentRows)
      + (if AmongParents(row, parentRows) then [] else [row])
  }

  /** The filter keeps the order of the rows: it works piece by piece. */
  lemma {:induction false} NewParentsAppend(a: seq<RoleRow>, b: seq<RoleRow>, parentRows: seq<RoleRow>)
    ensures NewParents(a + b, parentRows) == NewParents(a, parentRows) + NewParents(b, parentRows)
  {
    if b == [] {
      assert a + b == a;
    } else {
      var b' := b[..|b| - 1];
      assert (a + b)[..|a + b| - 1] == a + b';
      NewParentsAppend(a, b', parentRows);
    }
  }

  /** The merged rows: the parent rows, the additional parents that are not
      parent rows, then the child rows. */
  function CombineRows(parentRows: seq<RoleRow>, additionalParentRows: seq<RoleRow>,
                       allChildRows: seq<RoleRow>): (r: seq<RoleRow>)
    ensures |parentRows| + |allChildRows| <= |r| <= |parentRows| + |additionalParentRows| + |allChildRows|
    ensures r[..|parentRows|] == parentRows
    ensures r[|r| - |allChildRows|..] == allChildRows
    ensures forall row :: row in r[|parentRows|..|r| - |allChildRows|] <==>
      row in additionalParentRows && !AmongParents(row, parentRows)
  {
    var middle := NewParents(additionalParentRows, parentRows);
    var r := parentRows + middle + allChildRows;
    assert r[|parentRows|..|r| - |allChildRows|] == middle;
    r
  }

  /** The data of GET /menu-items/:roleName, from the rows of its four
      queries: the visible parents, the visible children, and what the
      additional-parent and child queries return when they run. */
  function RoleMenuRows(parentRows: seq<RoleRow>, visibleChildRows: seq<RoleRow>,
                        additionalParents: seq<RoleRow>, childResult: seq<RoleRow>): (r: seq<RoleRow>)
    requires forall i :: 0 <= i < |visibleChildRows| ==> visibleChildRows[i].item.parentId.Some?
    ensures |parentRows| <= |r| && r[..|parentRows|] == parentRows
    ensures forall row :: row in r ==> row in parentRows || row in additionalParents || row in childResult
    ensures visibleChildRows == [] ==> forall row :: row in r ==> row in parentRows || row in childResult
    ensures parentRows == [] && visibleChildRows == [] ==> r == []
  {
    var visibleChildParentIds := VisibleChildParentIds(visibleChildRows);
    var additionalParentRows := RunIfAny(visibleChildParentIds, additionalParents);
    var allParentIds := AllParentIds(parentRows, visibleChildParentIds);
    var allChildRows := RunIfAny(allParentIds, childResult);
    CombineRows(parentRows, additionalParentRows, allChildRows)
  }

  /** Without visible children the additional-parent query is skipped, and
      without any parent at all the child query is too. */
  lemma NoVisibleChildren(parentRows: seq<RoleRow>, additionalParents: seq<RoleRow>, childResult: seq<RoleRow>)
    ensures RoleMenuRows(parentRows, [], additionalParents, childResult)
         == parentRows + (if parentRows == [] then [] else childResult)
  {
    assert VisibleChildParentIds([]) == [];
    assert AllParentIds(parentRows, []) != [] <==> parentRows != [] by {
      assert MenuIds(parentRows) + [] == MenuIds(parentRows);
      if parentRows != [] {
        DistinctMembers(MenuIds(parentRows));
        assert MenuIds(parentRows)[0] in Distinct(MenuIds(parentRows));
      }
    }
  }

  /** With visible children both the additional-parent query and the child
      query run, and the role's rows are their merge with the visible
      parents (so, by CombineRows, the visible parents first, the child rows
      last, and between them exactly the additional parents that are not
      visible parents). */
  lemma RoleMenuShape(parentRows: seq<RoleRow>, visibleChildRows: seq<RoleRow>,
                      additionalParents: seq<RoleRow>, childResult: seq<RoleRow>)
    requires forall i :: 0 <= i < |visibleChildRows| ==> visibleChildRows[i].item.parentId.Some?
    requires visibleChildRows != []
    ensures RoleMenuRows(parentRows, visibleChildRows, additionalParents, childResult)
         == CombineRows(parentRows, additionalParents, childResult)
  {
    var ids := ParentIds(visibleChildRows);
    var visible := Distinct(ids);
    DistinctKeeps(ids, ids[0]);
    var both := MenuIds(parentRows) + visible;
    DistinctKeeps(both, visible[0]);
  }

  /** Only additional parents already among the parent rows are dropped: an
      additional parent listed twice (one row per permission row the left
      join finds) is kept twice. */
  lemma RepeatedAdditionalParentKept(parentRows: seq<RoleRow>, row: RoleRow)
    requires !AmongParents(row, parentRows)
    ensures CombineRows(parentRows, [row, row], []) == parentRows + [row, row]
  {
    assert [row, row][..1] == [row];
    assert [row][..0] == [];
  }
}
