/**
 * The configuration window: pulling a spreadsheet id out of a pasted URL,
 * vetting the service-account key text before it is written out, telling
 * whether the credentials worksheet already names an administrator, and the
 * input guard in front of creating new spreadsheets.
 */
module ConfigWindow {
  import opened Wrappers
  import opened Sheet
  import opened Text
  import opened Dialogs
  import ConfigStore

  /** The character class `[a-zA-Z0-9-_]` of the id pattern. */
  predicate IdChar(c: char) {
    ('a' <= c <= 'z') || ('A' <= c <= 'Z') || ('0' <= c <= '9') || c == '-' || c == '_'
  }

  predicate AllIdChars(s: string) {
    forall k :: 0 <= k < |s| ==> IdChar(s[k])
  }

  /** The pattern `/d/([a-zA-Z0-9-_]+)` can start matching at index `p` of `s`. */
  predicate MatchAt(s: string, p: nat) {
    MarkerAt(s, p) && p + 3 < |s| && IdChar(s[p + 3])
  }

  /** The greedy run `[a-zA-Z0-9-_]+` from index `i`: as many id characters as there are. */
  function Run(s: string, i: nat): (r: string)
    requires i <= |s|
    decreases |s| - i
    ensures i + |r| <= |s| && r == s[i..i + |r|] && AllIdChars(r)
    ensures i + |r| == |s| || !IdChar(s[i + |r|])
  {
    if i == |s| || !IdChar(s[i]) then [] else [s[i]] + Run(s, i + 1)
  }

  /** Where `re.search` finds its match: the least index at or after `from` that can start one. */
  function MatchFrom(s: string, from: nat): (r: Option<nat>)
    decreases |s| - from
    ensures r.Some? ==> from <= r.value && MatchAt(s, r.value)
    ensures r.Some? ==> forall q :: from <= q < r.value ==> !MatchAt(s, q)
    ensures r.None? <==> forall q :: from <= q ==> !MatchAt(s, q)
  {
    if from + 4 > |s| then None
    else if MatchAt(s, from) then Some(from)
    else MatchFrom(s, from + 1)
  }

  /**
   * `extract_id`: the first capture group of the leftmost match, i.e. the
   * maximal run of id characters after the first `/d/` that is followed by
   * at least one of them; None when nothing matches.
   */
  function ExtractId(url: string): (r: Option<string>)
    ensures r.None? <==> forall p :: 0 <= p ==> !MatchAt(url, p)
    ensures r.Some? ==> exists p: nat :: MatchAt(url, p) && (forall q :: 0 <= q < p ==> !MatchAt(url, q))
                                    && r.value == Run(url, p + 3)
    ensures r.Some? ==> |r.value| > 0
  {
    match MatchFrom(url, 0)
    case None => None
    case Some(p) => Some(Run(url, p + 3))
  }

  /** A run over a suffix made only of id characters takes the whole suffix. */
  lemma RunWhole(s: string, i: nat)
    requires i <= |s| && AllIdChars(s[i..])
    ensures Run(s, i) == s[i..]
  {
  }

  /**
   * The id of a published spreadsheet URL comes back out of it, whenever the
   * id is non-empty and made of id characters.
   */
  lemma {:induction false} ExtractPublishedId(id: string)
    requires |id| > 0 && AllIdChars(id)
    ensures ExtractId(SheetUrl(id)) == Some(id)
  {
    var url := SheetUrl(id);
    SheetUrlMarker(id);
    assert url[39] == id[0];
    assert MatchAt(url, 36);
    assert MatchFrom(url, 0) == Some(36);
    assert url[39..] == id;
    RunWhole(url, 39);
  }

  /**
   * On a published URL the configuration store's `/d/` split and this
   * pattern agree, so an id entered either way is the same id.
   */
  lemma ExtractAgreesWithStore(id: string)
    requires |id| > 0 && AllIdChars(id)
    ensures ExtractId(SheetUrl(id)) == ConfigStore.IdFromUrl(SheetUrl(id))
  {
    ExtractPublishedId(id);
    assert '/' !in id;
    ConfigStore.PublishedUrlId(id);
  }

  /** A JSON value as far as the key check looks at it: a string, or anything else. */
  datatype JsonValue = Str(s: string) | Other

  /**
   * The result of `json.loads` on the key text: a syntax error, or an object
   * with its members.
   */
  datatype Parsed = Invalid | Object(members: map<string, JsonValue>)

  const RequiredFields: seq<string> := ["client_email", "private_key", "type"]

  const JsonRequired: string := "Service account JSON required!"
  const MissingPrefix: string := "JSON missing required fields: "
  const NotServiceAccount: string := "JSON must be a service account key"
  const InvalidJson: string := "Invalid JSON format!"
  const ConfigurationSaved: string := "Configuration saved!"

  /** The required fields absent from the object, in the fixed order of `RequiredFields`. */
  function MissingFields(members: map<string, JsonValue>): (missing: seq<string>)
    ensures forall k :: 0 <= k < |missing| ==> missing[k] in RequiredFields && missing[k] !in members
    ensures forall k :: 0 <= k < |RequiredFields| && RequiredFields[k] !in members ==> RequiredFields[k] in missing
    ensures missing == (if "client_email" in members then [] else ["client_email"])
                       + (if "private_key" in members then [] else ["private_key"])
                       + (if "type" in members then [] else ["type"])
  {
    var absent := (f: string) => f !in members;
    var tail := ["private_key", "type"];
    assert RequiredFields[1..] == tail;
    assert tail[1..] == ["type"];
    assert ["type"][1..] == [];
    Filter(RequiredFields, absent)
  }

  /** What `save_configuration` ends with: the text written to the key file, or a message and no write. */
  datatype SaveOutcome = Saved(content: string) | Rejected(message: string)

  /**
   * `save_configuration`: the text is stripped; blank text, invalid JSON,
   * missing fields and a `type` other than the string "service_account"
   * each stop it with their message; otherwise the stripped text is what is
   * written. `parse` is the outcome of parsing the stripped text.
   */
  function SaveConfiguration(text: string, parse: Parsed): (o: SaveOutcome)
    ensures o.Saved? <==> Strip(text) != "" && parse.Object? && MissingFields(parse.members) == []
                          && parse.members["type"] == Str("service_account")
    ensures o.Saved? ==> o.content == Strip(text)
    ensures Strip(text) == "" ==> o == Rejected(JsonRequired)
  {
    var json := Strip(text);
    if json == "" then Rejected(JsonRequired)
    else match parse
      case Invalid => Rejected(InvalidJson)
      case Object(members) =>
        var missing := MissingFields(members);
        if missing != [] then Rejected(MissingPrefix + Join(missing, ", "))
        else if members["type"] != Str("service_account") then Rejected(NotServiceAccount)
        else Saved(json)
  }

  /**
   * The rejections in order: an object missing fields names them, in the
   * fixed order, before the type is looked at; the type is checked only on a
   * complete object.
   */
  lemma SaveConfigurationChecks(text: string, members: map<string, JsonValue>)
    requires Strip(text) != ""
    ensures SaveConfiguration(text, Invalid) == Rejected(InvalidJson)
    ensures MissingFields(members) != [] ==>
              SaveConfiguration(text, Object(members)) == Rejected(MissingPrefix + Join(MissingFields(members), ", "))
    ensures MissingFields(members) == [] && members["type"] != Str("service_account") ==>
              SaveConfiguration(text, Object(members)) == Rejected(NotServiceAccount)
  {
  }

  /** All three missing fields are named comma-separated in their fixed order. */
  lemma AllFieldsNamed()
    ensures Join(RequiredFields, ", ") == "client_email, private_key, type"
  {
    var tail := ["private_key", "type"];
    assert RequiredFields[1..] == tail;
    assert tail[1..] == ["type"];
    assert Join(tail, ", ") == "private_key" + ", " + "type";
    assert Join(RequiredFields, ", ") == "client_email" + ", " + ("private_key" + ", " + "type");
  }

  /**
   * `has_admin`: the credentials worksheet as read (None for any failure
   * before the rows are in hand) names an administrator when some row after
   * the first has a first cell that lower-cases to "admin". The scan
   * lower-cases the first cell of every such row, so one empty row raises
   * and the answer is false.
   */
  function HasAdmin(read: Option<Table>): (r: bool)
  {
    match read
    case None => false
    case Some(rows) =>
      var body := if rows == [] then [] else rows[1..];
      !HasEmptyRow(body) && NamesAdmin(body)
  }

  /** Some row is empty: lower-casing its first cell raises. */
  predicate HasEmptyRow(rows: Table) {
    exists k :: 0 <= k < |rows| && rows[k] == []
  }

  /** Some row's first cell lower-cases to "admin". */
  predicate NamesAdmin(rows: Table) {
    exists k :: 0 <= k < |rows| && rows[k] != [] && Lower(rows[k][0]) == "admin"
  }

  /** `has_admin` holds exactly for a readable sheet with an admin row after the first and no empty row there. */
  lemma HasAdminExactly(rows: Table)
    ensures HasAdmin(Some(rows)) <==>
              (forall k :: 1 <= k < |rows| ==> rows[k] != [])
              && exists k :: 1 <= k < |rows| && Lower(rows[k][0]) == "admin"
  {
    if rows != [] {
      var body := rows[1..];
      forall k | 1 <= k < |rows| ensures rows[k] == body[k - 1] {
      }
      if HasEmptyRow(body) {
        var k :| 0 <= k < |body| && body[k] == [];
        assert rows[k + 1] == [];
      }
      if NamesAdmin(body) {
        var k :| 0 <= k < |body| && body[k] != [] && Lower(body[k][0]) == "admin";
        assert rows[k + 1] == body[k];
      }
      if exists k :: 1 <= k < |rows| && rows[k] != [] && Lower(rows[k][0]) == "admin" {
        var k :| 1 <= k < |rows| && rows[k] != [] && Lower(rows[k][0]) == "admin";
        assert body[k - 1] == rows[k];
      }
      if exists k :: 1 <= k < |rows| && rows[k] == [] {
        var k :| 1 <= k < |rows| && rows[k] == [];
        assert body[k - 1] == [];
      }
    }
  }

  /** The role cell is matched case-insensitively; the first row never counts. */
  lemma AdminRowCounts(header: Row, role: string, rest: Row)
    requires Lower(role) == "admin"
    ensures HasAdmin(Some([header, [role] + rest]))
    ensures !HasAdmin(Some([[role] + rest]))
  {
    var rows := [header, [role] + rest];
    assert rows[1..][0] == [role] + rest;
  }

  const CredentialsRequired: string := "Admin email and password required for new sheets"
  const ConfigureCredentialsFirst: string := "Please configure Google credentials first"
  const FailedToCreate: string := "Failed to create sheets"
  const SharingMayHaveFailed: string := "Sheets created but sharing may have failed. Please check your email access."

  /** How the service's sheet creation and the two re-shares ended. */
  datatype Creation = Raised | NothingCreated | Created(inventoryShared: bool, credentialsShared: bool)

  /** What `create_new_sheets` ends with: the (email, password) it asked the service with, if any, and its message. */
  datatype CreateOutcome = CreateOutcome(request: Option<(string, string)>, notice: Notice)

  /**
   * `create_new_sheets`: the stripped email and password must both be
   * non-empty, then the key file must exist; only then are the sheets
   * created, with the stripped values. `creation` is how the service
   * answered.
   */
  function CreateNewSheets(emailText: string, passwordText: string, keyFileExists: bool, creation: Creation): (o: CreateOutcome)
    ensures o.request.Some? <==> Strip(emailText) != "" && Strip(passwordText) != "" && keyFileExists
    ensures o.request.Some? ==> o.request.value == (Strip(emailText), Strip(passwordText))
    ensures Strip(emailText) == "" || Strip(passwordText) == "" ==> o.notice == Error(CredentialsRequired)
    ensures o.notice.Info? ==> o.request.Some? && creation.Created?
  {
    var email := Strip(emailText);
    var password := Strip(passwordText);
    if email == "" || password == "" then CreateOutcome(None, Error(CredentialsRequired))
    else if !keyFileExists then CreateOutcome(None, Error(ConfigureCredentialsFirst))
    else
      var request := Some((email, password));
      match creation
      case Raised => CreateOutcome(request, Fault(FailedToCreate + ": "))
      case NothingCreated => CreateOutcome(request, Error(FailedToCreate))
      case Created(inventoryShared, credentialsShared) =>
        if inventoryShared && credentialsShared then
          CreateOutcome(request, Info("Sheets created and shared with " + email + " successfully!"))
        else CreateOutcome(request, Info(SharingMayHaveFailed))
  }

  /** Surrounding blanks do not count: an email or password of only spaces is refused before anything else. */
  lemma BlankCredentialsRefused(emailText: string, passwordText: string, keyFileExists: bool, creation: Creation)
    requires forall k :: 0 <= k < |passwordText| ==> IsSpace(passwordText[k])
    ensures CreateNewSheets(emailText, passwordText, keyFileExists, creation) == CreateOutcome(None, Error(CredentialsRequired))
  {
  }
}
