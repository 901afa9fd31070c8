/**
 * The administrator's side: adding, updating and removing inventory rows
 * and credential rows in their worksheets, and choosing which rows the
 * inventory, user and request lists show.
 */
module AdminPage {
  import opened Wrappers
  import opened Sheet
  import opened Text
  import opened Dialogs
  import Login

  const MaterialRemoved: string := "Material removed successfully!"
  const MaterialNotFound: string := "Material not found!"
  const MaterialUpdated: string := "Material updated successfully!"
  const MaterialAdded: string := "Material added successfully!"
  const UserRemoved: string := "User removed successfully!"
  const UserNotFound: string := "User not found!"
  const UserAdded: string := "User added successfully!"
  const InvalidRole: string := "Invalid role! Please choose 'admin' or 'user'."
  const ErrorOccurred: string := "An error occurred: "
  const UpdateFailed: string := "Failed to update material: "
  const RemoveFailed: string := "Failed to remove material: "

  // ---------------------------------------------------------------------
  // Inventory reconciler

  /**
   * What `modify_inventory` does to the inventory rows. The name is looked
   * up in every column; remove deletes the first row holding it; otherwise
   * a found row gets `quantity` in column 2 and a missing name gets a new
   * row `[name, quantity]`, both only when the quantity is non-empty.
   */
  function InventoryEffect(t: Table, name: string, quantity: string, remove: bool): Effect {
    var found := FirstRowWith(t, name);
    if remove then
      if found.Some? then Effect(DeleteAt(t, found.value), Info(MaterialRemoved))
      else Effect(t, Error(MaterialNotFound))
    else if found.Some? then
      if quantity != "" then Effect(t[found.value := SetCell(t[found.value], 2, quantity)], Info(MaterialUpdated))
      else Effect(t, NoNotice)
    else if quantity != "" then Effect(t + [[name, quantity]], Info(MaterialAdded))
    else Effect(t, NoNotice)
  }

  /**
   * `modify_inventory` on the inventory worksheet; a worksheet that could not
   * be opened (`None`) makes every call fail with the generic error.
   */
  method ModifyInventory(sheet: Worksheet?, name: string, quantity: string, remove: bool)
    returns (notice: Notice)
    modifies sheet
    ensures sheet == null ==> notice == Fault(ErrorOccurred)
    ensures sheet != null ==> Effect(sheet.rows, notice) == InventoryEffect(old(sheet.rows), name, quantity, remove)
  {
    if sheet == null {
      return Fault(ErrorOccurred);
    }
    var cell := sheet.Find(name);
    if remove {
      if cell.Some? {
        sheet.DeleteRow(cell.value);
        notice := Info(MaterialRemoved);
      } else {
        notice := Error(MaterialNotFound);
      }
    } else {
      if cell.Some? {
        if quantity != "" {
          sheet.UpdateCell(cell.value, 2, quantity);
          notice := Info(MaterialUpdated);
        } else {
          notice := NoNotice;
        }
      } else {
        if quantity != "" {
          sheet.AppendRow([name, quantity]);
          notice := Info(MaterialAdded);
        } else {
          notice := NoNotice;
        }
      }
    }
  }

  /** Some row holds a cell equal to `value`. */
  predicate Present(t: Table, value: string) {
    exists k :: 0 <= k < |t| && value in t[k]
  }

  /** Row `k` is the first row holding a cell equal to `value`. */
  predicate FirstHolder(t: Table, value: string, k: nat) {
    k < |t| && value in t[k] && forall j :: 0 <= j < k ==> value !in t[j]
  }

  /**
   * Remove: a present name deletes exactly the first row holding it and the
   * other rows keep their order; an absent name changes nothing and reports
   * that the material was not found.
   */
  lemma InventoryRemove(t: Table, name: string, quantity: string)
    ensures var e := InventoryEffect(t, name, quantity, true);
            if Present(t, name) then
              e.notice == Info(MaterialRemoved) && |e.rows| == |t| - 1 &&
              exists k: nat :: FirstHolder(t, name, k) && e.rows == t[..k] + t[k + 1..]
            else
              e.rows == t && e.notice == Error(MaterialNotFound)
  {
    var found := FirstRowWith(t, name);
    if found.Some? {
      assert FirstHolder(t, name, found.value);
    }
  }

  /**
   * Update of a present name: the row count stays, only column 2 of the
   * first row holding the name becomes `quantity` (a one-cell row is padded
   * to two cells), every other cell is as before. An empty quantity changes
   * nothing and shows nothing.
   */
  lemma InventoryUpdate(t: Table, name: string, quantity: string, k: nat)
    requires FirstHolder(t, name, k)
    ensures var e := InventoryEffect(t, name, quantity, false);
            |e.rows| == |t| &&
            (forall i :: 0 <= i < |t| && i != k ==> e.rows[i] == t[i]) &&
            (quantity == "" ==> e.rows == t && e.notice == NoNotice) &&
            (quantity != "" ==> e.notice == Info(MaterialUpdated) && e.rows[k][1] == quantity
                                && |e.rows[k]| == (if |t[k]| >= 2 then |t[k]| else 2)
                                && e.rows[k][0] == t[k][0]
                                && forall c :: 2 <= c < |t[k]| ==> e.rows[k][c] == t[k][c])
  {
    assert FirstRowWith(t, name) == Some(k);
  }

  /**
   * Add of an absent name: the table becomes the old rows followed by
   * `[name, quantity]`; with an empty quantity it stays as it is.
   */
  lemma InventoryAdd(t: Table, name: string, quantity: string)
    requires !Present(t, name)
    ensures var e := InventoryEffect(t, name, quantity, false);
            if quantity != "" then e.rows == t + [[name, quantity]] && e.notice == Info(MaterialAdded)
            else e.rows == t && e.notice == NoNotice
  {
  }

  /** A name already present anywhere in the table never gains a row. */
  lemma PresentNeverAppends(t: Table, name: string, quantity: string)
    requires Present(t, name)
    ensures |InventoryEffect(t, name, quantity, false).rows| == |t|
  {
  }

  /** In `t + [row]`, a value absent from `t` is first found in the appended row. */
  lemma {:induction false} FirstRowWithAppend(t: Table, row: Row, value: string)
    requires !Present(t, value) && value in row
    ensures FirstRowWith(t + [row], value) == Some(|t|)
  {
    var u := t + [row];
    forall k | 0 <= k < |t| ensures value !in u[k] {
      assert u[k] == t[k];
      assert !(value in t[k]);
    }
    assert value in u[|t|];
  }

  /**
   * Add then modify again: after a new material is added, a second
   * add/update of the same name rewrites that new row instead of adding
   * another, and a remove takes the table back to where it was.
   */
  lemma {:induction false} AddThenModify(t: Table, name: string, q1: string, q2: string)
    requires !Present(t, name) && q1 != ""
    ensures InventoryEffect(InventoryEffect(t, name, q1, false).rows, name, q2, false).rows
            == t + [[name, if q2 != "" then q2 else q1]]
    ensures InventoryEffect(InventoryEffect(t, name, q1, false).rows, name, q2, true).rows == t
  {
    var added := t + [[name, q1]];
    assert InventoryEffect(t, name, q1, false).rows == added;
    FirstRowWithAppend(t, [name, q1], name);
    assert added[|t|] == [name, q1];
    if q2 != "" {
      assert SetCell([name, q1], 2, q2) == [name, q2];
      assert added[|t| := [name, q2]] == t + [[name, q2]];
    }
    assert DeleteAt(added, |t|) == t;
  }

  /** The worked example: update Widget, add Bolt, remove Widget. */
  lemma WidgetBoltScenario()
    ensures InventoryEffect([["Widget", "5"]], "Widget", "12", false).rows == [["Widget", "12"]]
    ensures InventoryEffect([["Widget", "12"]], "Bolt", "3", false).rows == [["Widget", "12"], ["Bolt", "3"]]
    ensures InventoryEffect([["Widget", "12"], ["Bolt", "3"]], "Widget", "", true).rows == [["Bolt", "3"]]
  {
    assert FirstRowWith([["Widget", "5"]], "Widget") == Some(0);
    assert SetCell(["Widget", "5"], 2, "12") == ["Widget", "12"];
    assert "Bolt" !in ["Widget", "12"];
    assert FirstRowWith([["Widget", "12"]], "Bolt") == None;
    assert FirstRowWith([["Widget", "12"], ["Bolt", "3"]], "Widget") == Some(0);
  }

  // ---------------------------------------------------------------------
  // The lookup searches every column, not the name column

  /**
   * As written, the lookup matches a quantity cell: "adding" a material
   * called "5" to a table holding Widget with quantity 5 rewrites Widget's
   * quantity instead of adding a row.
   */
  lemma AnyColumnLookupRewritesOtherMaterial()
    ensures InventoryEffect([["Widget", "5"]], "5", "7", false).rows == [["Widget", "7"]]
    ensures InventoryEffect([["Widget", "5"]], "5", "", true).rows == []
  {
    assert FirstRowWith([["Widget", "5"]], "5") == Some(0);
    assert SetCell(["Widget", "5"], 2, "7") == ["Widget", "7"];
  }

  /** Row `row` is the record of material `name`: its first cell is the name. */
  predicate Named(row: Row, name: string) {
    |row| > 0 && row[0] == name
  }

  /** The 0-based index of the first row whose name cell equals `name`. */
  function FirstRowNamed(t: Table, name: string): (r: Option<nat>)
    ensures r.Some? ==> r.value < |t| && Named(t[r.value], name)
    ensures r.None? <==> forall k :: 0 <= k < |t| ==> !Named(t[k], name)
  {
    if t == [] then None
    else if Named(t[0], name) then Some(0)
    else match FirstRowNamed(t[1..], name)
      case None => None
      case Some(k) => Some(k + 1)
  }

  /** The reconciler with the lookup restricted to the name column. */
  function InventoryEffectByName(t: Table, name: string, quantity: string, remove: bool): Effect {
    var found := FirstRowNamed(t, name);
    if remove then
      if found.Some? then Effect(DeleteAt(t, found.value), Info(MaterialRemoved))
      else Effect(t, Error(MaterialNotFound))
    else if found.Some? then
      if quantity != "" then Effect(t[found.value := SetCell(t[found.value], 2, quantity)], Info(MaterialUpdated))
      else Effect(t, NoNotice)
    else if quantity != "" then Effect(t + [[name, quantity]], Info(MaterialAdded))
    else Effect(t, NoNotice)
  }

  /**
   * `modify_inventory` with the lookup restricted to the name column, as
   * `find(name, in_column=1)` does it.
   */
  method ModifyInventoryByName(sheet: Worksheet?, name: string, quantity: string, remove: bool)
    returns (notice: Notice)
    modifies sheet
    ensures sheet == null ==> notice == Fault(ErrorOccurred)
    ensures sheet != null ==> Effect(sheet.rows, notice) == InventoryEffectByName(old(sheet.rows), name, quantity, remove)
  {
    if sheet == null {
      return Fault(ErrorOccurred);
    }
    var found := FirstRowNamed(sheet.rows, name);
    if found.None? {
      if !remove && quantity != "" {
        sheet.AppendRow([name, quantity]);
        notice := Info(MaterialAdded);
      } else {
        notice := if remove then Error(MaterialNotFound) else NoNotice;
      }
    } else if remove {
      sheet.DeleteRow(found.value + 1);
      notice := Info(MaterialRemoved);
    } else if quantity != "" {
      sheet.UpdateCell(found.value + 1, 2, quantity);
      notice := Info(MaterialUpdated);
    } else {
      notice := NoNotice;
    }
  }

  /**
   * Restricted to the name column, an add or update changes no row of
   * another material, keeps every name cell, and adds a row only for a
   * name no row carries; a remove deletes a row of that material or nothing.
   */
  lemma ByNameTouchesOnlyThatMaterial(t: Table, name: string, quantity: string, remove: bool)
    ensures var e := InventoryEffectByName(t, name, quantity, remove);
            !remove ==>
              && |t| <= |e.rows| <= |t| + 1
              && (forall i :: 0 <= i < |t| && !Named(t[i], name) ==> e.rows[i] == t[i])
              && (forall i :: 0 <= i < |t| && |t[i]| > 0 ==> |e.rows[i]| > 0 && e.rows[i][0] == t[i][0])
              && (|e.rows| == |t| + 1 <==> quantity != "" && forall k :: 0 <= k < |t| ==> !Named(t[k], name))
    ensures var e := InventoryEffectByName(t, name, quantity, remove);
            remove ==> e.rows == t || exists k: nat :: k < |t| && Named(t[k], name) && e.rows == DeleteAt(t, k)
  {
  }

  /** Re-adding a material that has a row never adds a second row for it. */
  lemma {:induction false} ByNameReAddKeepsOneRow(t: Table, name: string, q1: string, q2: string)
    requires q1 != ""
    ensures var once := InventoryEffectByName(t, name, q1, false).rows;
            |InventoryEffectByName(once, name, q2, false).rows| == |once|
  {
    var once := InventoryEffectByName(t, name, q1, false).rows;
    if FirstRowNamed(t, name).None? {
      assert Named(once[|t|], name);
    } else {
      var k := FirstRowNamed(t, name).value;
      assert Named(once[k], name);
    }
  }

  // ---------------------------------------------------------------------
  // Credential edits

  /**
   * What `modify_credentials` does to the credential rows: remove deletes
   * the first row holding the email in any cell; add appends
   * `[role, email, password]` without looking for an existing row.
   */
  function CredentialsEffect(t: Table, email: string, password: string, role: string, remove: bool): Effect {
    if remove then
      match FirstRowWith(t, email)
      case Some(k) => Effect(DeleteAt(t, k), Info(UserRemoved))
      case None => Effect(t, Error(UserNotFound))
    else Effect(t + [[role, email, password]], Info(UserAdded))
  }

  /** `modify_credentials` on the credentials worksheet. */
  method ModifyCredentials(sheet: Worksheet?, email: string, password: string, role: string, remove: bool)
    returns (notice: Notice)
    modifies sheet
    ensures sheet == null ==> notice == Fault(ErrorOccurred)
    ensures sheet != null ==> Effect(sheet.rows, notice) == CredentialsEffect(old(sheet.rows), email, password, role, remove)
  {
    if sheet == null {
      return Fault(ErrorOccurred);
    }
    if remove {
      var cell := sheet.Find(email);
      if cell.Some? {
        sheet.DeleteRow(cell.value);
        notice := Info(UserRemoved);
      } else {
        notice := Error(UserNotFound);
      }
    } else {
      sheet.AppendRow([role, email, password]);
      notice := Info(UserAdded);
    }
  }

  /** Which button opened the user dialog. */
  datatype UserAction = AddUser | RemoveUser

  /** The role field accepts exactly "admin" and "user". */
  predicate ValidRole(role: string) {
    role == "admin" || role == "user"
  }

  /**
   * `save_user` in `manage_users`: a role other than "admin" or "user" is
   * refused before the worksheet is touched, for both actions; otherwise the
   * add passes the typed role and the remove the default role "user".
   */
  method SaveUser(sheet: Worksheet?, action: UserAction, role: string, email: string, password: string)
    returns (notice: Notice)
    modifies sheet
    ensures !ValidRole(role) ==> notice == Error(InvalidRole) && (sheet != null ==> sheet.rows == old(sheet.rows))
    ensures ValidRole(role) && sheet == null ==> notice == Fault(ErrorOccurred)
    ensures ValidRole(role) && sheet != null ==>
              Effect(sheet.rows, notice)
              == if action == AddUser then CredentialsEffect(old(sheet.rows), email, password, role, false)
                 else CredentialsEffect(old(sheet.rows), email, password, "user", true)
  {
    if !ValidRole(role) {
      return Error(InvalidRole);
    }
    if action == AddUser {
      notice := ModifyCredentials(sheet, email, password, role, false);
    } else {
      notice := ModifyCredentials(sheet, email, password, "user", true);
    }
  }

  /**
   * Adding a user makes it able to log in: the directory read back from the
   * worksheet maps the email to the given password and role, whatever the
   * worksheet held before (later rows win over earlier duplicates).
   */
  lemma AddedUserCanLogIn(t: Table, email: string, password: string, role: string)
    ensures var rows := CredentialsEffect(t, email, password, role, false).rows;
            Login.ValidateCredentials(Login.DirectoryOf(Read(rows)), email, password) == Some(role)
  {
    var rows := t + [[role, email, password]];
    if t == [] {
      assert rows == [[role, email, password]];
      assert Login.Collect(rows) == map[email := Login.Entry(password, role)] by {
        assert rows[..0] == [];
      }
      assert Login.Body(rows) == rows;
      assert email in Login.Collect(Login.Body(rows));
    } else {
      Login.LoginWithRow(rows, |t|, password);
    }
  }

  /** Adding an administrator through the dialog opens the admin dashboard at the next login. */
  lemma AddedAdminOpensDashboard(t: Table, email: string, password: string)
    ensures var rows := CredentialsEffect(t, email, password, "admin", false).rows;
            Login.LoginAction(Login.DirectoryOf(Read(rows)), email, password) == Login.AdminDashboard
  {
    AddedUserCanLogIn(t, email, password, "admin");
  }

  // ---------------------------------------------------------------------
  // Inventory list

  /** One entry of the inventory list; `rowNumber` is the worksheet row its buttons act on. */
  datatype InventoryItem = InventoryItem(rowNumber: nat, name: string, quantity: string)

  datatype InventoryView = NoInventory | InventoryItems(items: seq<InventoryItem>)

  /** A row the inventory list shows for the lower-cased search text `needle`. */
  predicate InventoryShown(row: Row, needle: string) {
    |row| >= 2 && IsSubstring(needle, Lower(row[0]))
  }

  /** The shown rows of `rows`, each with its 1-based position in `rows`. */
  function InventoryEntries(rows: Table, needle: string): (items: seq<InventoryItem>)
    ensures |items| <= |rows|
  {
    if rows == [] then []
    else
      var last := rows[|rows| - 1];
      var before := InventoryEntries(rows[..|rows| - 1], needle);
      if InventoryShown(last, needle) then before + [InventoryItem(|rows|, last[0], last[1])]
      else before
  }

  /**
   * Every listed entry shows a row that passes the search, with that row's
   * name and quantity, and its row number is the row's 1-based position;
   * the entries appear in worksheet order.
   */
  lemma {:induction false} InventoryEntriesSound(rows: Table, needle: string, j: nat)
    requires j < |InventoryEntries(rows, needle)|
    ensures var item := InventoryEntries(rows, needle)[j];
            1 <= item.rowNumber <= |rows|
            && InventoryShown(rows[item.rowNumber - 1], needle)
            && item.name == rows[item.rowNumber - 1][0]
            && item.quantity == rows[item.rowNumber - 1][1]
            && forall j2 :: j < j2 < |InventoryEntries(rows, needle)| ==>
                 item.rowNumber < InventoryEntries(rows, needle)[j2].rowNumber
  {
    var init := rows[..|rows| - 1];
    var before := InventoryEntries(init, needle);
    if j < |before| {
      InventoryEntriesSound(init, needle, j);
      var item := before[j];
      assert init[item.rowNumber - 1] == rows[item.rowNumber - 1];
      forall j2 | j < j2 < |InventoryEntries(rows, needle)|
        ensures item.rowNumber < InventoryEntries(rows, needle)[j2].rowNumber
      {
        if j2 < |before| {
          InventoryEntriesSound(init, needle, j2);
        }
      }
    }
  }

  /** Every row that passes the search is listed. */
  lemma {:induction false} InventoryEntriesComplete(rows: Table, needle: string, i: nat)
    requires i < |rows| && InventoryShown(rows[i], needle)
    ensures exists j :: 0 <= j < |InventoryEntries(rows, needle)| && InventoryEntries(rows, needle)[j].rowNumber == i + 1
  {
    var init := rows[..|rows| - 1];
    var items := InventoryEntries(rows, needle);
    if i < |rows| - 1 {
      assert init[i] == rows[i];
      InventoryEntriesComplete(init, needle, i);
      var j :| 0 <= j < |InventoryEntries(init, needle)| && InventoryEntries(init, needle)[j].rowNumber == i + 1;
      assert items[j] == InventoryEntries(init, needle)[j];
    } else {
      assert items[|items| - 1].rowNumber == i + 1;
    }
  }

  /**
   * `update_inventory` in the admin's inventory window: no rows gives the
   * "No inventory found" label; otherwise every row with at least two cells
   * whose lower-cased name contains the lower-cased search text is listed,
   * in worksheet order, with its 1-based row number.
   */
  function InventoryListing(rows: Table, search: string): (v: InventoryView)
    ensures rows == [] <==> v == NoInventory
    ensures v.InventoryItems? ==> v.items == InventoryEntries(rows, Lower(search))
  {
    if rows == [] then NoInventory else InventoryItems(InventoryEntries(rows, Lower(search)))
  }

  /** With an empty search every row with two or more cells is listed. */
  lemma {:induction false} EmptySearchListsAll(rows: Table)
    ensures |InventoryEntries(rows, "")| == |Filter(rows, (row: Row) => |row| >= 2)|
  {
    if rows != [] {
      var init := rows[..|rows| - 1];
      var last := rows[|rows| - 1];
      EmptySearchListsAll(init);
      assert rows == init + [last];
      FilterAppend(init, [last], (row: Row) => |row| >= 2);
      EmptyIsSubstring(Lower(if |last| >= 2 then last[0] else ""));
    }
  }

  /**
   * `update_material_inline`: the row is read with `row_values`, and a row
   * that comes back without a second cell (past the data, or blank after
   * the name) fails. Otherwise the dialog opens, and only its Save button
   * (`saved`) writes the new quantity into column 2; closing the window
   * leaves the worksheet as it was.
   */
  method UpdateMaterialInline(sheet: Worksheet, rowNumber: nat, saved: bool, newQuantity: string)
    returns (notice: Notice)
    modifies sheet
    ensures |old(sheet.RowValues(rowNumber))| < 2 ==>
              sheet.rows == old(sheet.rows) && notice == Fault(UpdateFailed)
    ensures |old(sheet.RowValues(rowNumber))| >= 2 && !saved ==>
              sheet.rows == old(sheet.rows) && notice == NoNotice
    ensures |old(sheet.RowValues(rowNumber))| >= 2 && saved ==>
              1 <= rowNumber <= |old(sheet.rows)|
              && sheet.rows == old(sheet.rows)[rowNumber - 1 := SetCell(old(sheet.rows)[rowNumber - 1], 2, newQuantity)]
              && notice == Info(MaterialUpdated)
  {
    var row := sheet.RowValues(rowNumber);
    if |row| < 2 {
      return Fault(UpdateFailed);
    }
    if !saved {
      return NoNotice;
    }
    sheet.UpdateCell(rowNumber, 2, newQuantity);
    notice := Info(MaterialUpdated);
  }

  /**
   * `remove_material_inline`: after confirmation the row is deleted; without
   * it nothing happens. A row number past the data fails.
   */
  method RemoveMaterialInline(sheet: Worksheet, rowNumber: nat, confirmed: bool) returns (notice: Notice)
    modifies sheet
    ensures !confirmed ==> sheet.rows == old(sheet.rows) && notice == NoNotice
    ensures confirmed && 1 <= rowNumber <= |old(sheet.rows)| ==>
              sheet.rows == DeleteAt(old(sheet.rows), rowNumber - 1) && notice == Info(MaterialRemoved)
    ensures confirmed && !(1 <= rowNumber <= |old(sheet.rows)|) ==>
              sheet.rows == old(sheet.rows) && notice == Fault(RemoveFailed)
  {
    if !confirmed {
      return NoNotice;
    }
    if !(1 <= rowNumber <= |sheet.rows|) {
      return Fault(RemoveFailed);
    }
    sheet.DeleteRow(rowNumber);
    notice := Info(MaterialRemoved);
  }

  /**
   * The buttons of a listed entry act on the row that entry shows: removing
   * through them deletes a row carrying that name and quantity.
   */
  lemma ListedEntryTargetsItsRow(rows: Table, search: string, j: nat)
    requires InventoryListing(rows, search).InventoryItems?
    requires j < |InventoryListing(rows, search).items|
    ensures var item := InventoryListing(rows, search).items[j];
            1 <= item.rowNumber <= |rows| && |rows[item.rowNumber - 1]| >= 2
            && rows[item.rowNumber - 1][0] == item.name && rows[item.rowNumber - 1][1] == item.quantity
  {
    InventoryEntriesSound(rows, Lower(search), j);
  }

  // ---------------------------------------------------------------------
  // User list

  datatype UserItem = UserItem(role: string, email: string)

  datatype UsersView = NoUsers | UsersFailed | UserItems(items: seq<UserItem>)

  /** A credential row the user list shows for the lower-cased search text `needle`. */
  predicate UserShown(row: Row, needle: string) {
    |row| >= 2 && (IsSubstring(needle, Lower(row[1])) || IsSubstring(needle, Lower(row[0])))
  }

  /** Each shown row as (capitalised role, email), in order. */
  function UserEntries(rows: Table, needle: string): (items: seq<UserItem>)
    ensures |items| == |Filter(rows, (row: Row) => UserShown(row, needle))|
    ensures forall j :: 0 <= j < |items| ==>
              var row := Filter(rows, (row: Row) => UserShown(row, needle))[j];
              items[j] == UserItem(Capitalize(row[0]), row[1])
  {
    if rows == [] then []
    else if UserShown(rows[0], needle) then [UserItem(Capitalize(rows[0][0]), rows[0][1])] + UserEntries(rows[1..], needle)
    else UserEntries(rows[1..], needle)
  }

  /**
   * `update_users`: no rows gives "No users found"; an empty first row fails
   * (its first cell is read); a first row whose first cell lower-cases to
   * "role" is the header and is dropped.
   */
  function UsersListing(rows: Table, search: string): (v: UsersView)
    ensures rows == [] <==> v == NoUsers
    ensures v == UsersFailed <==> rows != [] && rows[0] == []
    ensures v.UserItems? ==>
              v.items == UserEntries(if Lower(rows[0][0]) == "role" then rows[1..] else rows, Lower(search))
  {
    if rows == [] then NoUsers
    else if rows[0] == [] then UsersFailed
    else
      var body := if Lower(rows[0][0]) == "role" then rows[1..] else rows;
      UserItems(UserEntries(body, Lower(search)))
  }

  // ---------------------------------------------------------------------
  // Request list

  /** A request as the admin's request list shows it; missing cells are empty. */
  datatype RequestItem = RequestItem(email: string, material: string, quantity: string, date: string, notes: string)

  datatype RequestsView = NoRequests | RequestsFailed | RequestItems(items: seq<RequestItem>)

  /** Cell `i` of a row, or "" when the row is shorter. */
  function CellOr(row: Row, i: nat): string {
    if i < |row| then row[i] else ""
  }

  /**
   * A request row passes the filters: it has at least three cells, the
   * lower-cased email filter (when given) occurs in the lower-cased email,
   * and the date filter (when given) occurs, case kept, in the date cell.
   */
  predicate RequestShown(row: Row, emailNeedle: string, dateFilter: string) {
    && |row| >= 3
    && (emailNeedle == "" || IsSubstring(emailNeedle, Lower(row[0])))
    && (dateFilter == "" || IsSubstring(dateFilter, CellOr(row, 3)))
  }

  function ToRequestItem(row: Row): RequestItem {
    RequestItem(CellOr(row, 0), CellOr(row, 1), CellOr(row, 2), CellOr(row, 3), CellOr(row, 4))
  }

  function RequestEntries(rows: Table, emailNeedle: string, dateFilter: string): (items: seq<RequestItem>)
    ensures |items| == |Filter(rows, (row: Row) => RequestShown(row, emailNeedle, dateFilter))|
    ensures forall j :: 0 <= j < |items| ==>
              items[j] == ToRequestItem(Filter(rows, (row: Row) => RequestShown(row, emailNeedle, dateFilter))[j])
  {
    if rows == [] then []
    else if RequestShown(rows[0], emailNeedle, dateFilter) then [ToRequestItem(rows[0])] + RequestEntries(rows[1..], emailNeedle, dateFilter)
    else RequestEntries(rows[1..], emailNeedle, dateFilter)
  }

  /**
   * `update_requests`: at most one row lists nothing; an empty first row
   * fails; a first row whose first cell lower-cases to "email" is dropped;
   * every remaining row passing both filters is listed, in order.
   */
  function RequestsListing(rows: Table, emailFilter: string, dateFilter: string): (v: RequestsView)
    ensures |rows| <= 1 <==> v == NoRequests
    ensures v == RequestsFailed <==> |rows| > 1 && rows[0] == []
    ensures v.RequestItems? ==>
              v.items == RequestEntries(if Lower(rows[0][0]) == "email" then rows[1..] else rows, Lower(emailFilter), dateFilter)
  {
    if |rows| <= 1 then NoRequests
    else if rows[0] == [] then RequestsFailed
    else
      var body := if Lower(rows[0][0]) == "email" then rows[1..] else rows;
      RequestItems(RequestEntries(body, Lower(emailFilter), dateFilter))
  }

  /**
   * The "when given" guards change nothing: an empty filter occurs in every
   * text, so each filter is a plain substring test.
   */
  lemma RequestFiltersAreSubstringTests(row: Row, emailNeedle: string, dateFilter: string)
    requires |row| >= 3
    ensures RequestShown(row, emailNeedle, dateFilter)
        <==> IsSubstring(emailNeedle, Lower(row[0])) && IsSubstring(dateFilter, CellOr(row, 3))
  {
    EmptyIsSubstring(Lower(row[0]));
    EmptyIsSubstring(CellOr(row, 3));
  }
}
