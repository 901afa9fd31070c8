/**
 * The configuration store: four text fields (two spreadsheet ids, two
 * spreadsheet URLs) loaded from and saved to one configuration file. An id
 * left blank in the file is taken from its URL; any failure while loading
 * leaves all four fields blank.
 */
module ConfigStore {
  import opened Wrappers
  import opened Sheet

  const InventoryIdKey: string := "inventory_sheet_id"
  const CredentialsIdKey: string := "credentials_sheet_id"
  const InventoryUrlKey: string := "inventory_url"
  const CredentialsUrlKey: string := "credentials_url"

  /**
   * What the configuration file holds: no file, a file that cannot be read
   * or parsed, or the `google_sheets_ids` section as a dictionary (empty
   * when the section is missing).
   */
  datatype StoredConfig = NoFile | Unreadable | Stored(section: map<string, string>)

  /** The configuration file on disk. */
  class ConfigFile {
    var stored: StoredConfig

    constructor (initial: StoredConfig)
      ensures stored == initial
    {
      stored := initial;
    }
  }

  /** The four configuration fields. */
  datatype Settings = Settings(inventorySheetId: string, credentialsSheetId: string,
                               inventoryUrl: string, credentialsUrl: string)

  const Blank: Settings := Settings("", "", "", "")

  /** `section.get(key, "")`. */
  function Lookup(section: map<string, string>, key: string): string {
    if key in section then section[key] else ""
  }

  /** The 0-based index of the first `/d/` at or after index `from`. */
  function MarkerFrom(url: string, from: nat): (r: Option<nat>)
    decreases |url| - from
    ensures r.Some? ==> from <= r.value && MarkerAt(url, r.value)
    ensures r.Some? ==> forall j :: from <= j < r.value ==> !MarkerAt(url, j)
    ensures r.None? <==> forall j :: from <= j ==> !MarkerAt(url, j)
  {
    if from + 3 > |url| then None
    else if MarkerAt(url, from) then Some(from)
    else MarkerFrom(url, from + 1)
  }

  /** The text of `s` before its first `/`, or all of it. */
  function BeforeSlash(s: string): (r: string)
    ensures |r| <= |s| && r == s[..|r|] && '/' !in r
    ensures |r| < |s| ==> s[|r|] == '/'
  {
    if s == [] || s[0] == '/' then [] else [s[0]] + BeforeSlash(s[1..])
  }

  /**
   * `url.split('/d/')[1].split('/')[0]`: the text after the first `/d/` up
   * to the next `/`. None stands for the IndexError raised when the URL has
   * no `/d/` at all.
   */
  function IdFromUrl(url: string): (r: Option<string>)
    ensures r.None? <==> forall j :: 0 <= j ==> !MarkerAt(url, j)
    ensures r.Some? ==> exists i :: 0 <= i && MarkerAt(url, i) && (forall j :: 0 <= j < i ==> !MarkerAt(url, j))
                                     && r.value == BeforeSlash(url[i + 3..])
  {
    match MarkerFrom(url, 0)
    case None => None
    case Some(i) => Some(BeforeSlash(url[i + 3..]))
  }

  /** The id a loaded field ends with: kept when non-blank, else taken from a non-blank URL. */
  function Resolve(id: string, url: string): Option<string> {
    if id == "" && url != "" then IdFromUrl(url) else Some(id)
  }

  /** The four fields `load_config` leaves behind for a given file. */
  function Loaded(file: StoredConfig): Settings {
    match file
    case NoFile => Blank
    case Unreadable => Blank
    case Stored(section) =>
      var invUrl := Lookup(section, InventoryUrlKey);
      var credUrl := Lookup(section, CredentialsUrlKey);
      var invId := Resolve(Lookup(section, InventoryIdKey), invUrl);
      var credId := Resolve(Lookup(section, CredentialsIdKey), credUrl);
      if invId.None? || credId.None? then Blank
      else Settings(invId.value, credId.value, invUrl, credUrl)
  }

  /** The section `save_sheet_urls` writes for the given fields. */
  function Persisted(s: Settings): StoredConfig {
    Stored(map[InventoryIdKey := s.inventorySheetId, CredentialsIdKey := s.credentialsSheetId,
               InventoryUrlKey := s.inventoryUrl, CredentialsUrlKey := s.credentialsUrl])
  }

  class Config {
    var inventorySheetId: string
    var credentialsSheetId: string
    var inventoryUrl: string
    var credentialsUrl: string

    /** The current value of the four fields. */
    function Current(): Settings
      reads this
    {
      Settings(inventorySheetId, credentialsSheetId, inventoryUrl, credentialsUrl)
    }

    /** Constructing a configuration loads it from the file. */
    constructor (file: ConfigFile)
      ensures Current() == Loaded(file.stored)
    {
      new;
      LoadConfig(file);
    }

    method ResetAll()
      modifies this
      ensures Current() == Blank
    {
      inventorySheetId := "";
      credentialsSheetId := "";
      inventoryUrl := "";
      credentialsUrl := "";
    }

    /**
     * `load_config`: read the four fields (missing keys blank), derive a
     * blank id from its URL; a missing file, an unreadable file or a URL
     * without `/d/` leaves all four fields blank.
     */
    method LoadConfig(file: ConfigFile)
      modifies this
      ensures Current() == Loaded(file.stored)
    {
      if !file.stored.Stored? {
        ResetAll();
        return;
      }
      var section := file.stored.section;
      inventorySheetId := Lookup(section, InventoryIdKey);
      credentialsSheetId := Lookup(section, CredentialsIdKey);
      inventoryUrl := Lookup(section, InventoryUrlKey);
      credentialsUrl := Lookup(section, CredentialsUrlKey);
      if inventorySheetId == "" && inventoryUrl != "" {
        var id := IdFromUrl(inventoryUrl);
        if id.None? {
          ResetAll();
          return;
        }
        inventorySheetId := id.value;
      }
      if credentialsSheetId == "" && credentialsUrl != "" {
        var id := IdFromUrl(credentialsUrl);
        if id.None? {
          ResetAll();
          return;
        }
        credentialsSheetId := id.value;
      }
    }

    /**
     * `save_sheet_urls`: the two URLs are replaced in memory, the ids are
     * left as they are, and all four fields are written to the file.
     */
    method SaveSheetUrls(file: ConfigFile, newInventoryUrl: string, newCredentialsUrl: string)
      modifies this, file
      ensures Current() == old(Current()).(inventoryUrl := newInventoryUrl, credentialsUrl := newCredentialsUrl)
      ensures file.stored == Persisted(Current())
    {
      inventoryUrl := newInventoryUrl;
      credentialsUrl := newCredentialsUrl;
      file.stored := Persisted(Current());
    }

    function GetInventorySheetId(): string
      reads this
    {
      inventorySheetId
    }

    function GetCredentialsSheetId(): string
      reads this
    {
      credentialsSheetId
    }

    function GetInventoryUrl(): string
      reads this
    {
      inventoryUrl
    }

    function GetCredentialsUrl(): string
      reads this
    {
      credentialsUrl
    }
  }

  /** Keys missing from the section read as blank, and so do their ids. */
  lemma MissingKeysBlank()
    ensures Loaded(Stored(map[])) == Blank
  {
  }

  /**
   * A non-blank stored id is kept as it is and never re-derived from its
   * URL; only a failure on the other URL can blank it, together with
   * everything else.
   */
  lemma StoredIdKept(section: map<string, string>)
    requires Lookup(section, InventoryIdKey) != ""
    ensures Loaded(Stored(section)) == Blank
         || Loaded(Stored(section)).inventorySheetId == Lookup(section, InventoryIdKey)
  {
  }

  /**
   * A blank id with a URL holding `/d/` becomes the text after the first
   * `/d/` up to the next `/`.
   */
  lemma {:induction false} BlankIdDerived(section: map<string, string>, i: nat)
    requires Lookup(section, InventoryIdKey) == ""
    requires Lookup(section, CredentialsIdKey) != ""
    requires MarkerAt(Lookup(section, InventoryUrlKey), i)
    requires forall j :: 0 <= j < i ==> !MarkerAt(Lookup(section, InventoryUrlKey), j)
    ensures Loaded(Stored(section)).inventorySheetId == BeforeSlash(Lookup(section, InventoryUrlKey)[i + 3..])
  {
    var url := Lookup(section, InventoryUrlKey);
    assert url != [];
    assert MarkerFrom(url, 0) == Some(i);
  }

  /**
   * A blank id whose non-blank URL has no `/d/` makes the whole load fail:
   * all four fields are blank, the good ones included.
   */
  lemma BadUrlBlanksAll(section: map<string, string>)
    requires Lookup(section, CredentialsIdKey) == ""
    requires Lookup(section, CredentialsUrlKey) != ""
    requires forall j :: 0 <= j ==> !MarkerAt(Lookup(section, CredentialsUrlKey), j)
    ensures Loaded(Stored(section)) == Blank
  {
  }

  /** The id of a published URL comes back out of it, when it holds no `/`. */
  lemma {:induction false} PublishedUrlId(id: string)
    requires '/' !in id
    ensures IdFromUrl(SheetUrl(id)) == Some(id)
  {
    var url := SheetUrl(id);
    SheetUrlMarker(id);
    assert MarkerFrom(url, 0) == Some(36);
    assert url[39..] == id;
    BeforeSlashWhole(id);
  }

  lemma {:induction false} BeforeSlashWhole(s: string)
    requires '/' !in s
    ensures BeforeSlash(s) == s
  {
    if s != [] {
      BeforeSlashWhole(s[1..]);
    }
  }

  /**
   * Save then load: the saved URLs come back, and each id is the one held
   * before the save when non-blank, else the one derived from the new URL;
   * a new URL that fails derivation blanks everything.
   */
  lemma SaveLoadRoundTrip(before: Settings, invUrl: string, credUrl: string)
    ensures var invId := Resolve(before.inventorySheetId, invUrl);
            var credId := Resolve(before.credentialsSheetId, credUrl);
            Loaded(Persisted(before.(inventoryUrl := invUrl, credentialsUrl := credUrl)))
            == if invId.None? || credId.None? then Blank
               else Settings(invId.value, credId.value, invUrl, credUrl)
  {
  }

  /**
   * Saving what was loaded and loading again gives the same four fields:
   * derivation never changes an id that has already been derived.
   */
  lemma {:induction false} LoadSaveLoadStable(file: StoredConfig)
    ensures Loaded(Persisted(Loaded(file))) == Loaded(file)
  {
    var s := Loaded(file);
    SaveLoadRoundTrip(s, s.inventoryUrl, s.credentialsUrl);
    assert s.(inventoryUrl := s.inventoryUrl, credentialsUrl := s.credentialsUrl) == s;
    if s != Blank {
      var section := file.section;
      var invUrl := Lookup(section, InventoryUrlKey);
      var credUrl := Lookup(section, CredentialsUrlKey);
      ResolveIdempotent(Lookup(section, InventoryIdKey), invUrl);
      ResolveIdempotent(Lookup(section, CredentialsIdKey), credUrl);
    }
  }

  /** Resolving an already resolved id changes nothing. */
  lemma ResolveIdempotent(id: string, url: string)
    requires Resolve(id, url).Some?
    ensures Resolve(Resolve(id, url).value, url) == Resolve(id, url)
  {
  }

  /**
   * First run: when new spreadsheets are published and their URLs saved over
   * blank ids, loading gives back exactly the published ids.
   */
  lemma FreshSheetsRoundTrip(invId: string, credId: string)
    requires '/' !in invId && '/' !in credId
    ensures Loaded(Persisted(Settings("", "", SheetUrl(invId), SheetUrl(credId))))
         == Settings(invId, credId, SheetUrl(invId), SheetUrl(credId))
  {
    PublishedUrlId(invId);
    PublishedUrlId(credId);
    SaveLoadRoundTrip(Blank, SheetUrl(invId), SheetUrl(credId));
  }

  /** A save followed by a load through the same file, as the application does on first run. */
  method SaveThenLoad(c: Config, file: ConfigFile, invUrl: string, credUrl: string)
    modifies c, file
    ensures var invId := Resolve(old(c.inventorySheetId), invUrl);
            var credId := Resolve(old(c.credentialsSheetId), credUrl);
            c.Current() == if invId.None? || credId.None? then Blank
                           else Settings(invId.value, credId.value, invUrl, credUrl)
  {
    ghost var before := c.Current();
    c.SaveSheetUrls(file, invUrl, credUrl);
    c.LoadConfig(file);
    SaveLoadRoundTrip(before, invUrl, credUrl);
  }
}
