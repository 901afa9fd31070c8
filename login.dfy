/**
 * The credential directory of the login screen: the credentials worksheet,
 * read as rows `[role, email, password, ...]`, becomes a dictionary from
 * email to (password, role); a fixed administrator entry stands in when the
 * worksheet cannot be read or yields nothing. Logging in looks the typed
 * email and password up in that dictionary and opens the dashboard of the
 * stored role.
 */
module Login {
  import opened Wrappers
  import opened Sheet

  /** The value stored per email: the tuple `(password, role)`. */
  datatype Entry = Entry(password: string, role: string)

  type Directory = map<string, Entry>

  const FallbackEmail: string := "admin@example.com"
  const FallbackPassword: string := "admin123"
  const FallbackRole: string := "admin"

  /** The one-entry dictionary returned whenever nothing better is available. */
  const Fallback: Directory := map[FallbackEmail := Entry(FallbackPassword, FallbackRole)]

  /** A row the loop takes into the dictionary: it has role, email and password cells. */
  predicate Qualifies(row: Row) {
    |row| >= 3
  }

  /** The entry a qualifying row contributes, keyed by `row[1]`. */
  function EntryOf(row: Row): Entry
    requires Qualifies(row)
  {
    Entry(row[2], row[0])
  }

  /**
   * The rows the loop runs over: with more than one row the first is dropped,
   * whatever it holds; a single row is kept.
   */
  function Body(data: Table): Table {
    if |data| > 1 then data[1..] else data
  }

  /**
   * The dictionary built from `rows` in order: each qualifying row sets
   * `row[1]` to its entry, so a later row overwrites an earlier one.
   */
  function Collect(rows: Table): Directory
  {
    if rows == [] then map[]
    else
      var m := Collect(rows[..|rows| - 1]);
      var row := rows[|rows| - 1];
      if Qualifies(row) then m[row[1] := EntryOf(row)] else m
  }

  /** The dictionary `fetch_credentials` returns for a given outcome of the read. */
  function DirectoryOf(src: Source): Directory
  {
    match src
    case NoClient => Fallback
    case ReadFailed => Fallback
    case Read(data) =>
      if data == [] then Fallback
      else
        var m := Collect(Body(data));
        if m == map[] then Fallback else m
  }

  /**
   * `fetch_credentials`: the loop over the rows fills the dictionary; the
   * fallback entry replaces an empty result and every failed read.
   */
  method FetchCredentials(src: Source) returns (creds: Directory)
    ensures creds == DirectoryOf(src)
    ensures creds != map[]
    ensures src.NoClient? || src.ReadFailed? || src == Read([]) ==> creds == Fallback
  {
    assert FallbackEmail in Fallback;
    if src.NoClient? || src.ReadFailed? {
      return Fallback;
    }
    var data := src.data;
    if data == [] {
      return Fallback;
    }
    if |data| > 1 {
      data := data[1..];
    }
    creds := map[];
    var i := 0;
    while i < |data|
      invariant 0 <= i <= |data|
      invariant creds == Collect(data[..i])
    {
      var row := data[i];
      if |row| >= 3 {
        creds := creds[row[1] := Entry(row[2], row[0])];
      }
      assert data[..i + 1][..i] == data[..i];
      i := i + 1;
    }
    assert data[..i] == data;
    if creds == map[] {
      return Fallback;
    }
  }

  /** Some qualifying row among `rows` carries email `e`. */
  predicate HasRowFor(rows: Table, e: string) {
    exists i :: 0 <= i < |rows| && Qualifies(rows[i]) && rows[i][1] == e
  }

  /** An email is a key of the collected dictionary exactly when a qualifying row carries it. */
  lemma {:induction false} CollectKeys(rows: Table, e: string)
    ensures e in Collect(rows) <==> HasRowFor(rows, e)
  {
    if rows != [] {
      var init := rows[..|rows| - 1];
      CollectKeys(init, e);
      if HasRowFor(init, e) {
        var i :| 0 <= i < |init| && Qualifies(init[i]) && init[i][1] == e;
        assert rows[i] == init[i];
      }
      if HasRowFor(rows, e) {
        var i :| 0 <= i < |rows| && Qualifies(rows[i]) && rows[i][1] == e;
        if i < |init| {
          assert init[i] == rows[i];
        }
      }
    }
  }

  /**
   * Duplicate emails: the entry kept for an email is that of the LAST
   * qualifying row carrying it.
   */
  lemma {:induction false} CollectLastWins(rows: Table, i: nat)
    requires i < |rows| && Qualifies(rows[i])
    requires forall j :: i < j < |rows| && Qualifies(rows[j]) ==> rows[j][1] != rows[i][1]
    ensures rows[i][1] in Collect(rows)
    ensures Collect(rows)[rows[i][1]] == EntryOf(rows[i])
  {
    var init := rows[..|rows| - 1];
    if i < |rows| - 1 {
      assert init[i] == rows[i];
      forall j | i < j < |init| && Qualifies(init[j]) ensures init[j][1] != init[i][1] {
        assert init[j] == rows[j];
      }
      CollectLastWins(init, i);
    }
  }

  /** Only qualifying rows matter; extra cells beyond the third are ignored. */
  lemma {:induction false} CollectIgnoresShortRows(rows: Table, row: Row)
    requires !Qualifies(row)
    ensures Collect(rows + [row]) == Collect(rows)
  {
    assert (rows + [row])[..|rows|] == rows;
  }

  /** The result of the fetch is never empty. */
  lemma DirectoryNeverEmpty(src: Source)
    ensures DirectoryOf(src) != map[]
  {
    assert FallbackEmail in Fallback;
  }

  /**
   * With more than one row the first row never reaches the dictionary:
   * replacing it by anything leaves the result unchanged.
   */
  lemma FirstRowIgnored(first: Row, other: Row, rest: Table)
    requires rest != []
    ensures DirectoryOf(Read([first] + rest)) == DirectoryOf(Read([other] + rest))
  {
    assert ([first] + rest)[1..] == rest == ([other] + rest)[1..];
  }

  /**
   * The emails of the dictionary read from a worksheet: exactly those of the
   * qualifying rows after the dropped first row, or the fallback email alone
   * when there are none.
   */
  lemma DirectoryKeys(data: Table, e: string)
    ensures e in DirectoryOf(Read(data)) <==>
              HasRowFor(Body(data), e) || (DirectoryOf(Read(data)) == Fallback && e == FallbackEmail)
  {
    CollectKeys(Body(data), e);
    assert FallbackEmail in Fallback;
  }

  /**
   * `validate_credentials`: the stored role when the email is a key and the
   * password equals the stored one exactly, else None.
   */
  function ValidateCredentials(creds: Directory, email: string, password: string): (r: Option<string>)
    ensures r.Some? <==> email in creds && creds[email].password == password
    ensures r.Some? ==> r.value == creds[email].role
  {
    if email in creds && creds[email].password == password then Some(creds[email].role) else None
  }

  /** Where the login screen goes next. */
  datatype Screen = AdminDashboard | UserDashboard(email: string) | LoginError(message: string)

  const InvalidLogin: string := "Invalid Email or Password!"

  /**
   * `login_action`: role "admin" opens the admin dashboard, role "user" the
   * user dashboard for the typed email; no match or any other role only sets
   * the error label.
   */
  function LoginAction(creds: Directory, email: string, password: string): (s: Screen)
    ensures s.AdminDashboard? <==> ValidateCredentials(creds, email, password) == Some("admin")
    ensures s.UserDashboard? <==> ValidateCredentials(creds, email, password) == Some("user")
    ensures s.UserDashboard? ==> s.email == email
    ensures s.LoginError? ==> s.message == InvalidLogin
  {
    var role := ValidateCredentials(creds, email, password);
    if role == Some("admin") then AdminDashboard
    else if role == Some("user") then UserDashboard(email)
    else LoginError(InvalidLogin)
  }

  /**
   * A dashboard opens only for a stored email, its exact stored password and
   * a stored role that is literally "admin" or "user".
   */
  lemma {:induction false} LoginNeedsStoredPassword(creds: Directory, email: string, password: string)
    requires !LoginAction(creds, email, password).LoginError?
    ensures email in creds && creds[email].password == password
    ensures creds[email].role == "admin" || creds[email].role == "user"
  {
    var r := ValidateCredentials(creds, email, password);
    assert r.Some?;
  }

  /**
   * Logging in against a worksheet that yields a real dictionary: the last
   * qualifying row for the email decides, by its password and its role.
   */
  lemma LoginWithRow(data: Table, i: nat, password: string)
    requires |data| > 1 && 1 <= i < |data| && Qualifies(data[i])
    requires forall j :: i < j < |data| && Qualifies(data[j]) ==> data[j][1] != data[i][1]
    ensures ValidateCredentials(DirectoryOf(Read(data)), data[i][1], password)
         == if password == data[i][2] then Some(data[i][0]) else None
  {
    var rows := data[1..];
    assert rows[i - 1] == data[i];
    forall j | i - 1 < j < |rows| && Qualifies(rows[j]) ensures rows[j][1] != rows[i - 1][1] {
      assert rows[j] == data[j + 1];
    }
    CollectLastWins(rows, i - 1);
  }
}
