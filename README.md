# Inventory management over spreadsheets — a Dafny model

The application is a desktop inventory tool whose data lives in remote
spreadsheets. An administrator keeps an inventory worksheet (material name,
quantity) and a credentials worksheet (role, email, password). Users log in
against the credentials worksheet and file material requests into a request
worksheet. A configuration file records which spreadsheets to use, and a
configuration window vets the service-account key and the spreadsheet URLs.

This project models the logic behind those screens; the widgets are not modelled:

- `Sheet` (sheet.dfy): a worksheet as an ordered table of rows of cell
  texts. It is a `Worksheet` class whose `rows` field the row writes
  (`append_row`, `delete_row`, `update_cell`) update in place. It also
  models the service's any-column `find`.
- `Login` (login.dfy): `fetch_credentials` is a loop method proved against
  a left fold of the rows. The module also covers the fallback
  administrator, `validate_credentials` and `login_action`.
- `ConfigStore` (config.dfy): the four-field `Config` class. Its
  `load_config` derives a blank id from its URL, and `save_sheet_urls`
  rewrites the file. The module proves save/load round trips.
- `AdminPage` (admin_page.dfy): the inventory reconciler
  `modify_inventory`, the credential edits and the inline row actions,
  all proved against effect functions. It also covers which rows the
  admin's inventory, user and request lists show.
- `UserPage` (user_page.dfy): filing a material request, listing one's
  own requests, the material choices and the user's inventory list.
- `ConfigWindow` (config_window.dfy): `extract_id`
  as a leftmost-greedy match, the key-text checks, `has_admin` and the
  guard in front of sheet creation.
- `Text`, `Wrappers`, `Dialogs`: ASCII lower-casing, stripping, joining
  and substring search. `Option`. The outcome of a dialog: an information
  box, an error box, an error box carrying an exception's text (`Fault`),
  or nothing.

Where the code and its description disagree, the model follows the code:

- `fetch_credentials` drops the first row whenever there is more than
  one row, not only when it is a header (login.py:67-68).
- The admin request list matches the date filter case-sensitively
  (admin_page.py:514).
- `has_admin` is false as soon as any row after the first is empty, because
  indexing that row raises (config_window.py:56).
- The admin user list and request list fail when the first row is empty
  (admin_page.py:495, 691).
- The user's inventory list stops at the first row that is not exactly two
  cells wide. The entries before it stay on screen (user_page.py:274-287).

## Model

| member | source | states |
|---|---|---|
| Sheet.FirstRowWith | admin_page.py:167 | The result is the index of the first row that has a cell equal to the value, in any column. It is None exactly when no row has such a cell. |
| Sheet.Worksheet.Find | admin_page.py:152 | The 1-based number of the first row holding the value in any column. None iff no row holds it. |
| Sheet.Worksheet.AppendRow | admin_page.py:159 | The new row goes after the last one. The others are unchanged. |
| Sheet.Worksheet.DeleteRow | admin_page.py:154 | Row n disappears. The rows below it move up by one, in order. |
| Sheet.Worksheet.UpdateCell | admin_page.py:177 | Only cell (n, c) changes. Every other row is unchanged. |
| Sheet.TrimBlanks | admin_page.py:555 | `row_values` drops the trailing empty cells: the result is a prefix of the row, it ends in a non-empty cell, and every dropped cell is empty. |
| Sheet.SecondCellKept | admin_page.py:555-557 | A read row has a second cell exactly when some cell after the first is non-empty. |
| Sheet.SetCell | admin_page.py:177 | Column c gets the value and every other cell keeps its text. A short row is padded with empty cells up to column c. |
| Sheet.SheetUrlMarker | sheets_manager.py:53-54 | In a published URL, `/d/` occurs first at index 36, whatever the id. |
| Text.Lower | user_page.py:267 | Length is kept. Each character is lower-cased (ASCII). |
| Text.LowerIdempotent | user_page.py:267 | Lower-casing an already lower-cased text changes nothing. |
| Text.CapitalizeIgnoresCase | admin_page.py:703 | Capitalising ignores the case the text came in: a lower-cased text capitalises to the same result, and capitalising twice equals capitalising once. |
| Text.Strip | config_window.py:171-172 | The result is a contiguous slice of the text with only white space before and after it, and it neither starts nor ends with white space. It is empty iff the text is all white space. White space includes `\x1c`-`\x1f`. |
| Login.FetchCredentials | login.py:43-88 | The loop's result equals the fold `DirectoryOf` of the read outcome. It is never empty. No client, a failed read or an empty sheet gives the fallback administrator. |
| Login.CollectKeys | login.py:70-74 | An email is a key iff some row with at least three cells carries it in column 2. |
| Login.CollectLastWins | login.py:71-74 | A duplicate email keeps the password and role of its last qualifying row. |
| Login.CollectIgnoresShortRows | login.py:72 | A row with fewer than three cells leaves the dictionary unchanged. |
| Login.DirectoryNeverEmpty | login.py:76-79 | Every outcome of the fetch has at least one entry. |
| Login.FirstRowIgnored | login.py:67-68 | With more than one row, whatever the first row holds, the dictionary is the same. |
| Login.DirectoryKeys | login.py:62-81 | The keys are exactly the emails of the qualifying rows of `Body(data)` (all rows after the first when there are two or more, else the rows as they are), or the fallback email alone. |
| Login.ValidateCredentials | login.py:172-175 | The result is the stored role iff the email is a key and the password equals the stored one exactly. Otherwise None. |
| Login.LoginAction | login.py:156-170 | The admin dashboard opens iff validation yields "admin". The user dashboard for the typed email opens iff it yields "user". Anything else sets "Invalid Email or Password!". |
| Login.LoginNeedsStoredPassword | login.py:156-175 | A dashboard opens only for a stored email and its exact password, and only when the stored role is "admin" or "user". |
| Login.LoginWithRow | login.py:67-81 | Against a read worksheet, the last qualifying row of an email decides the login: its password is checked and its role is returned. |
| ConfigStore.MarkerFrom | config.py:48 | The first index at or after `from` where `/d/` starts. None iff there is none. |
| ConfigStore.BeforeSlash | config.py:48 | The result is the longest prefix without `/`. It ends at the first `/`. |
| ConfigStore.IdFromUrl | config.py:48 | The result is the text after the first `/d/`, up to the next `/`. None exactly when the URL has no `/d/` (the IndexError). |
| ConfigStore.Config.constructor | config.py:6-7 | A new configuration holds what loading the file gives. |
| ConfigStore.Config.ResetAll | config.py:52-55 | All four fields become blank. |
| ConfigStore.Config.LoadConfig | config.py:35-61 | The fields become `Loaded(file)`. Missing keys read as blank. A blank id is taken from its non-blank URL. A missing or unreadable file, or a URL without `/d/`, blanks all four. |
| ConfigStore.Config.SaveSheetUrls | config.py:21-33 | The two URLs are replaced and the ids kept. The file then holds exactly the four current fields. |
| ConfigStore.MissingKeysBlank | config.py:40-44 | An empty section loads as four blank fields. |
| ConfigStore.StoredIdKept | config.py:47 | A non-blank stored id is loaded unchanged, unless the whole load fails. |
| ConfigStore.BlankIdDerived | config.py:47-48 | When the stored credentials id is non-blank, a blank inventory id becomes the text after the inventory URL's first `/d/`, up to the next `/`. |
| ConfigStore.BadUrlBlanksAll | config.py:49-61 | A blank id whose URL has no `/d/` blanks all four fields, the good ones included. |
| ConfigStore.PublishedUrlId | config.py:48 | The id of a published URL (one without `/`) is derived back exactly. |
| ConfigStore.BeforeSlashWhole | config.py:48 | Text without `/` is kept whole. |
| ConfigStore.SaveLoadRoundTrip | config.py:21-50 | After save then load, the saved URLs come back. Each id is the one held before when non-blank, else the one derived from the new URL. |
| ConfigStore.LoadSaveLoadStable | config.py:21-61 | Saving what was loaded and loading again gives the same four fields. |
| ConfigStore.ResolveIdempotent | config.py:47-50 | Deriving an already derived id changes nothing. |
| ConfigStore.FreshSheetsRoundTrip | config.py:21-50 | Published URLs saved over blank ids load back as exactly the published ids. |
| ConfigStore.SaveThenLoad | config.py:21-61 | The object after `save_sheet_urls` followed by `load_config` holds the round-trip result. |
| AdminPage.ModifyInventory | admin_page.py:164-188 | With no worksheet the generic error is raised. Otherwise the new rows and the message are exactly the reconciler's effect on the old rows. |
| AdminPage.InventoryRemove | admin_page.py:166-172 | A present name deletes exactly the first row holding it and the other rows keep their order. An absent name changes nothing and reports "Material not found!". |
| AdminPage.InventoryUpdate | admin_page.py:174-178 | Only column 2 of the first holding row changes (padded to two cells), and every other row and cell is kept. An empty quantity changes nothing. |
| AdminPage.InventoryAdd | admin_page.py:179-182 | An absent name appends `[name, quantity]` when the quantity is non-empty. Otherwise nothing changes. |
| AdminPage.PresentNeverAppends | admin_page.py:174-178 | A name present anywhere never adds a row. |
| AdminPage.FirstRowWithAppend | admin_page.py:174 | A value absent from the table is found in an appended row holding it. |
| AdminPage.AddThenModify | admin_page.py:164-182 | After adding a new material, a second add/update of that name rewrites the new row instead of adding one. A remove restores the table. |
| AdminPage.WidgetBoltScenario | admin_page.py:164-182 | Worked example: updating Widget, adding Bolt, then removing Widget. |
| AdminPage.AnyColumnLookupRewritesOtherMaterial | admin_page.py:174-178 | As written, a name equal to another row's quantity rewrites or removes that row. |
| AdminPage.FirstRowNamed | admin_page.py:174 | The first row whose name cell equals the name. None iff no row is named so. |
| AdminPage.ModifyInventoryByName | admin_page.py:164-188 | The corrected reconciler: with the name looked up in column 1 only, the new rows and message are exactly the by-name effect. |
| AdminPage.ByNameTouchesOnlyThatMaterial | admin_page.py:164-182 | Looked up by name column: other materials' rows are untouched and name cells are kept. A row is added iff the name is absent and the quantity is non-empty. A remove deletes a row of that name or nothing. |
| AdminPage.ByNameReAddKeepsOneRow | admin_page.py:164-182 | Looked up by name column, re-adding an existing material never adds a row. |
| AdminPage.ModifyCredentials | admin_page.py:149-162 | With no worksheet the generic error is raised. Otherwise, remove deletes the first row holding the email in any cell, or reports "User not found!". Add appends `[role, email, password]`. |
| AdminPage.SaveUser | admin_page.py:214-227 | A role other than "admin"/"user" is refused and the worksheet is untouched. Otherwise add passes the typed role and remove passes "user". |
| AdminPage.AddedUserCanLogIn | admin_page.py:159 | After a user is added, the directory read back validates that email and password to the given role. |
| AdminPage.AddedAdminOpensDashboard | admin_page.py:159 | An added administrator opens the admin dashboard at the next login. |
| AdminPage.InventoryEntries | admin_page.py:314-320 | The list has at most one entry per row. |
| AdminPage.InventoryEntriesSound | admin_page.py:314-320 | Each entry shows a row that passes the search, with its name, quantity and 1-based row number. Entries appear in worksheet order. |
| AdminPage.InventoryEntriesComplete | admin_page.py:314-320 | Every row that passes the search is listed. |
| AdminPage.InventoryListing | admin_page.py:305-320 | No rows gives "No inventory found". Otherwise the entries are those of the lower-cased search. |
| AdminPage.EmptySearchListsAll | admin_page.py:309-319 | An empty search lists every row with two or more cells. |
| AdminPage.UpdateMaterialInline | admin_page.py:552-587 | A row that `row_values` returns without a second cell (past the data, or blank after the name) fails and changes nothing. Otherwise closing the dialog changes nothing, and Save writes the new quantity into column 2 of that row and nothing else. |
| AdminPage.RemoveMaterialInline | admin_page.py:589-603 | Only after confirmation is the row deleted. A row number past the data fails. |
| AdminPage.ListedEntryTargetsItsRow | admin_page.py:316-342 | A listed entry's buttons act on the row that carries that entry's name and quantity. |
| AdminPage.UserEntries | admin_page.py:694-712 | Each row with two or more cells whose email or role contains the search is listed as (capitalised role, email), in order. |
| AdminPage.UsersListing | admin_page.py:679-697 | No rows gives "No users found". An empty first row fails. A first cell "role" (any case) marks a header that is dropped. |
| AdminPage.RequestEntries | admin_page.py:498-516 | Each row with three or more cells passing both filters is listed, in order, with missing cells empty. |
| AdminPage.RequestsListing | admin_page.py:479-516 | At most one row lists nothing. An empty first row fails. A first cell "email" (any case) marks a header that is dropped. |
| AdminPage.RequestFiltersAreSubstringTests | admin_page.py:511-515 | An empty filter passes everything, so each filter is a plain substring test. The email test is case-insensitive and the date test case-sensitive. |
| UserPage.SaveMaterial | user_page.py:363-398 | The worksheet and message are exactly the save effect: checks first, then one appended row. |
| UserPage.SaveMaterialOutcome | user_page.py:371-394 | Errors come in the order material, quantity, number. A rejection leaves the ledger as it was. An acceptance appends exactly one row with email, material and quantity. |
| UserPage.MyRequests | user_page.py:210 | The result is exactly the rows with two or more cells whose first cell is the user's email, never more rows than the worksheet has. |
| UserPage.MyRequestsAppend | user_page.py:210 | The filter keeps worksheet order. |
| UserPage.SavedRequestListed | user_page.py:363-394 | An accepted request appears last in its email's list, and no other email's list changes. |
| UserPage.RequestRowListsBack | user_page.py:216-220 | A row filed by the request form (user_page.py:388-390) lists back as exactly the material, quantity and date that were filed, with or without notes. |
| UserPage.Lines | user_page.py:216-220 | One line per row, in order. |
| UserPage.MyRequestsListing | user_page.py:174-239 | A missing request worksheet gives "Cannot connect to Google Sheets" and a failed read the error line, each exactly in that case. An empty worksheet gives "No data available". No own rows gives "You have no material requests". Otherwise one line per own row, in order. |
| UserPage.FirstCells | user_page.py:320 | The result is the non-empty first cells, in order, with duplicates kept. Every such cell appears. |
| UserPage.FirstCellsAppend | user_page.py:320 | The names keep worksheet order. |
| UserPage.MaterialOptions | user_page.py:315-322 | The placeholder comes first, then the inventory's names. An unreadable inventory offers the placeholder alone. |
| UserPage.StockEntries | user_page.py:274-287 | A failure is reported iff some row is not exactly two cells wide. |
| UserPage.StockListing | user_page.py:265-287 | The error line is shown exactly when the worksheet is missing or the read fails. No rows gives "No inventory found". Otherwise the entries and the failure flag are those of `StockEntries` on the lower-cased search text. |
| UserPage.StockStopsAtBadRow | user_page.py:274-287 | The list stops at the first row that is not two cells wide: it keeps the entries before it and drops the rows after it. |
| UserPage.StockAllWellFormed | user_page.py:274-285 | With only two-cell rows nothing fails. The entries are exactly the matching rows, in order. |
| ConfigWindow.Run | config_window.py:123 | The result is the greedy run of `[a-zA-Z0-9-_]`: all id characters, and stopped only by the end or a non-id character. |
| ConfigWindow.MatchFrom | config_window.py:123 | The leftmost index where `/d/` is followed by an id character. None iff there is none. |
| ConfigWindow.ExtractId | config_window.py:121-124 | The result is the maximal run after the leftmost `/d/` that is followed by an id character. None iff there is no match. Never empty. |
| ConfigWindow.RunWhole | config_window.py:123 | A suffix made only of id characters is taken whole. |
| ConfigWindow.ExtractPublishedId | config_window.py:121-124 | Round trip: the id of a published URL (non-empty, id characters only) comes back out. |
| ConfigWindow.ExtractAgreesWithStore | config_window.py:121-124 | On published URLs, `extract_id` and the store's `/d/` split give the same id. |
| ConfigWindow.MissingFields | config_window.py:146-147 | The result is the required fields absent from the object, in the order client_email, private_key, type. |
| ConfigWindow.SaveConfiguration | config_window.py:140-168 | The text is written iff it is non-blank, parses to an object, has all three fields and its type is "service_account". What is written is the stripped text. Blank text gives "Service account JSON required!". |
| ConfigWindow.SaveConfigurationChecks | config_window.py:145-164 | Invalid JSON, then missing fields (named in order), then a wrong type. Each is rejected with its own message. |
| ConfigWindow.AllFieldsNamed | config_window.py:150 | The three missing fields are named as "client_email, private_key, type". |
| ConfigWindow.HasAdminExactly | config_window.py:50-59 | `has_admin` is true iff no row after the first is empty and some row after the first has a first cell that lower-cases to "admin". |
| ConfigWindow.AdminRowCounts | config_window.py:56 | The role cell matches in any case. The first row never counts. |
| ConfigWindow.CreateNewSheets | config_window.py:170-200 | The service is called, with the stripped email and password, iff both are non-blank and the key file exists. A blank input gives "Admin email and password required for new sheets". Success messages need created sheets. |
| ConfigWindow.BlankCredentialsRefused | config_window.py:171-176 | A password of only white space is refused before anything else. |

## Left out

- Widgets, layout, colours, modal windows and main loops, along with the message-box module and the help screens, are out of the model. A dialog's outcome is modelled as a `Notice`.
- The spreadsheet service, authorisation, the network and the service account's key file are parameters: a `Worksheet` object, a `Source` read outcome, or a flag saying the key file exists.
- Which exception text follows a generic error is not modelled. A `Fault` carries only the fixed prefix.
- The first-run branch of `fetch_credentials` is not modelled (login.py:52-57). That branch creates and shares new spreadsheets; `FreshSheetsRoundTrip` covers only the configuration it saves.
- `sheets_manager.py` beyond its URL form is not part of this model: creating, sharing and seeding spreadsheets are calls into the service.
- `test_connection`, `process_requests`, `view_user_requests` (opening or creating the request worksheet), the CSV export and `restart_app` are I/O or process control and are not modelled.
- JSON parsing and serialisation are not modelled. Parsed key text is either invalid or an object of members. Key text that parses to a non-object (a list, string or number) is not modelled.
- `float()` is the parameter `parsesAsNumber`; its grammar is not modelled.
- `Text.Lower`, `Text.Capitalize` and `Text.Strip` handle ASCII only. Python's Unicode case mapping and white space are not modelled.
- `AdminPage.UpdateMaterialInline`: the worksheet is assumed unchanged between opening the dialog and pressing Save. An exception from the write itself is not modelled.
- `UserPage.SaveMaterial`: an exception from the service while appending is not modelled. Nor is the check that closes the dialog when the request worksheet is missing (user_page.py:294-296).
- `AdminPage.RemoveMaterialInline`: a row number past the data is modelled as failing. The service would delete an empty grid row there while the grid is larger than the data.
- `AdminPage.ModifyInventory`, `AdminPage.ModifyInventoryByName`, `AdminPage.ModifyCredentials`, `AdminPage.SaveUser`: an exception raised by the service on an open worksheet is not modelled. In the source it ends the operation with "An error occurred: ..." (admin_page.py:160-161, 187-188). A null worksheet is the only failure modelled.
- `AdminPage.ModifyInventory`: the `CellNotFound` handler (admin_page.py:183-186) is not modelled. It appends `[name, quantity]` without the empty-quantity check and does nothing on a failed remove; the model's lookup returns no row instead of raising.
- `AdminPage.InventoryListing`, `AdminPage.UsersListing`, `AdminPage.RequestsListing`: an exception while reading or listing the worksheet is not modelled. In the source it shows "Error: ..." in place of the list (admin_page.py:351-352, 535-536, 713-714).
- `ConfigStore.Config` getters are plain field reads and carry no contract of their own.
- The dictionary order of `fetch_credentials` is not modelled; the result is a `map`.

## Findings

| source | as written | input that shows it | evidently intended | confidence | as-written member | corrected member |
|---|---|---|---|---|---|---|
| admin_page.py:167-178 | `find(name)` searches every column, so a material name equal to another row's quantity matches that row | table `[["Widget","5"]]`, add/update name "5" with quantity "7", gives `[["Widget","7"]]`; remove "5" deletes Widget | look the name up in column 1 only, so other materials are never touched | not executed | AdminPage.AnyColumnLookupRewritesOtherMaterial | AdminPage.ModifyInventoryByName |
