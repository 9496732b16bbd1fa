/** Configuration bookkeeping of the export application (config.py): the
    deep merge used when a saved configuration is loaded over the defaults,
    and the three bounded lists the application keeps in its configuration
    (recent contacts, recent databases, decryption history). */
module Config {
  import opened Wrappers
  import opened Lists

  /** A value as the JSON configuration file holds it. */
  datatype Value =
    | Null
    | Bool(b: bool)
    | Int(i: int)
    | Float(f: real)
    | Str(s: string)
    | List(items: seq<Value>)
    | Dict(entries: map<string, Value>)

  /** Python's `hasattr(v, '__len__')` for JSON values. */
  predicate HasLength(v: Value) {
    v.Str? || v.List? || v.Dict?
  }

  /** Python's `len(v)` for the sized values. */
  function Length(v: Value): nat
    requires HasLength(v)
  {
    match v
    case Str(s) => |s|
    case List(xs) => |xs|
    case Dict(m) => |m|
  }

  /** `is_empty(v)`: `None`, or a sized value of length 0. */
  predicate IsEmpty(v: Value) {
    v.Null? || (HasLength(v) && Length(v) == 0)
  }

  /** The empty values are exactly `None`, `""`, `[]` and `{}`; numbers and
      booleans, `0` and `False` included, are never empty. */
  lemma IsEmptyExactly(v: Value)
    ensures IsEmpty(v) <==> v == Null || v == Str("") || v == List([]) || v == Dict(map[])
  {
    if v.Dict? && |v.entries| == 0 {
      assert v.entries == map[] by {
        if k :| k in v.entries { assert k in v.entries.Keys; }
      }
    }
  }

  /** `d.get(k)`: the value stored under `k`, or `None` when `k` is absent. */
  function Get(m: map<string, Value>, k: string): Value {
    if k in m then m[k] else Null
  }

  /** `merge_dicts_deep(target, source)`: every key of either side is kept.
      Two dictionaries under one key are merged recursively; otherwise the
      source value is taken only when the target lacks the key or holds an
      empty value there and the source value is not empty. */
  function MergeDeep(target: map<string, Value>, source: map<string, Value>): (r: map<string, Value>)
    ensures r.Keys == target.Keys + source.Keys
    decreases Dict(target), 1
  {
    map k | k in target.Keys + source.Keys :: MergeEntry(target, source, k)
  }

  /** The value `merge_dicts_deep` puts under key `k`. */
  function MergeEntry(target: map<string, Value>, source: map<string, Value>, k: string): Value
    decreases Dict(target), 0
  {
    var tv := Get(target, k);
    var sv := Get(source, k);
    if tv.Dict? && sv.Dict? then
      assert tv in target.Values;
      Dict(MergeDeep(tv.entries, sv.entries))
    else if !sv.Null? && !IsEmpty(sv) && (k !in target || IsEmpty(tv)) then sv
    else if k in target then tv
    else sv
  }

  /** Two dictionaries under the same key are merged recursively. */
  lemma MergeNested(target: map<string, Value>, source: map<string, Value>, k: string)
    requires k in target && k in source && target[k].Dict? && source[k].Dict?
    ensures MergeDeep(target, source)[k] == Dict(MergeDeep(target[k].entries, source[k].entries))
  {
  }

  /** The target wins at every key where it holds a non-empty value that is
      not a pair of dictionaries, even when the source holds a different
      non-empty value. */
  lemma MergeKeepsTarget(target: map<string, Value>, source: map<string, Value>, k: string)
    requires k in target && !IsEmpty(target[k])
    requires !(target[k].Dict? && k in source && source[k].Dict?)
    ensures MergeDeep(target, source)[k] == target[k]
  {
  }

  /** The source fills a key the target lacks or holds empty, provided the
      source value is not empty. */
  lemma MergeFillsFromSource(target: map<string, Value>, source: map<string, Value>, k: string)
    requires k in source && !IsEmpty(source[k])
    requires k !in target || IsEmpty(target[k])
    requires !(k in target && target[k].Dict? && source[k].Dict?)
    ensures MergeDeep(target, source)[k] == source[k]
  {
  }

  /** An empty source value never replaces a target value. */
  lemma MergeIgnoresEmptySource(target: map<string, Value>, source: map<string, Value>, k: string)
    requires k in target && (k !in source || IsEmpty(source[k]))
    requires !(target[k].Dict? && k in source && source[k].Dict?)
    ensures MergeDeep(target, source)[k] == target[k]
  {
  }

  /** A key only the source has keeps the source value even when it is
      empty. */
  lemma MergeKeepsEmptySourceOnly(target: map<string, Value>, source: map<string, Value>, k: string)
    requires k !in target && k in source && IsEmpty(source[k])
    ensures MergeDeep(target, source)[k] == source[k]
  {
  }

  /** The merge never leaves an empty value where either side held a
      non-empty one. */
  lemma MergeNeverEmpties(target: map<string, Value>, source: map<string, Value>, k: string)
    requires k in target + source
    requires IsEmpty(MergeDeep(target, source)[k])
    ensures k in target ==> IsEmpty(target[k])
    ensures k in source ==> IsEmpty(source[k])
  {
    var tv, sv := Get(target, k), Get(source, k);
    assert MergeDeep(target, source)[k] == MergeEntry(target, source, k);
    if tv.Dict? && sv.Dict? {
      var merged := MergeDeep(tv.entries, sv.entries);
      assert MergeEntry(target, source, k) == Dict(merged);
    }
  }

  /** Merging with an empty source changes nothing. */
  lemma MergeEmptySource(target: map<string, Value>)
    ensures MergeDeep(target, map[]) == target
  {
  }

  /** Merging into an empty target yields the source. */
  lemma MergeEmptyTarget(source: map<string, Value>)
    ensures MergeDeep(map[], source) == source
  {
  }

  /** Merging a configuration with itself gives it back, at every depth. */
  lemma {:induction false} MergeIdempotent(m: map<string, Value>)
    ensures MergeDeep(m, m) == m
    decreases Dict(m)
  {
    forall k | k in m ensures MergeDeep(m, m)[k] == m[k] {
      if m[k].Dict? {
        assert m[k] in m.Values;
        MergeIdempotent(m[k].entries);
      }
    }
  }

  // ---------------------------------------------------------------------
  // Loading the configuration

  /** `DEFAULT_CONFIG`; the documents folder it starts `db_dir` from is a
      platform call and comes in as `defaultDbDir`. */
  function DefaultConfig(defaultDbDir: string): map<string, Value> {
    map[
      "db_dir" := Str(defaultDbDir),
      "db_version" := Int(3),
      "output_dir" := Str("./data/"),
      "last_export_format" := Str("HTML"),
      "recent_contacts" := List([]),
      "recent_databases" := List([]),
      "decrypt_history" := List([])
    ]
  }

  /** `load_config` as written: a missing or unreadable file (`None`) gives
      the defaults; a saved configuration is merged INTO the defaults, so the
      defaults act as the target. */
  function LoadConfigAsWritten(saved: Option<map<string, Value>>, defaultDbDir: string): (r: map<string, Value>)
    ensures r.Keys >= DefaultConfig(defaultDbDir).Keys
  {
    match saved
    case None => DefaultConfig(defaultDbDir)
    case Some(c) => MergeDeep(DefaultConfig(defaultDbDir), c)
  }

  /** A saved database version 4 is read back as the default 3: the saved
      value is non-empty, but so is the default, and the target wins. */
  lemma LoadConfigAsWrittenLosesSavedVersion(defaultDbDir: string)
    ensures LoadConfigAsWritten(Some(map["db_version" := Int(4)]), defaultDbDir)["db_version"] == Int(3)
  {
    MergeKeepsTarget(DefaultConfig(defaultDbDir), map["db_version" := Int(4)], "db_version");
  }

  /** `load_config` as evidently intended: the saved configuration is the
      target and the defaults only fill what it lacks or left empty. */
  function LoadConfig(saved: Option<map<string, Value>>, defaultDbDir: string): (r: map<string, Value>)
    ensures r.Keys >= DefaultConfig(defaultDbDir).Keys
  {
    match saved
    case None => DefaultConfig(defaultDbDir)
    case Some(c) => MergeDeep(c, DefaultConfig(defaultDbDir))
  }

  /** Every non-empty saved setting survives loading. */
  lemma LoadConfigKeepsSaved(saved: map<string, Value>, defaultDbDir: string, k: string)
    requires k in saved && !IsEmpty(saved[k])
    ensures LoadConfig(Some(saved), defaultDbDir)[k] == saved[k]
  {
    MergeKeepsTarget(saved, DefaultConfig(defaultDbDir), k);
  }

  /** A setting the saved file lacks, or left empty, takes its default. */
  lemma LoadConfigFillsDefaults(saved: map<string, Value>, defaultDbDir: string, k: string)
    requires k in DefaultConfig(defaultDbDir) && !IsEmpty(DefaultConfig(defaultDbDir)[k])
    requires k !in saved || IsEmpty(saved[k])
    ensures LoadConfig(Some(saved), defaultDbDir)[k] == DefaultConfig(defaultDbDir)[k]
  {
    MergeFillsFromSource(saved, DefaultConfig(defaultDbDir), k);
  }

  // ---------------------------------------------------------------------
  // The bounded lists kept in the configuration

  const MaxRecentContacts: nat := 10
  const MaxRecentDatabases: nat := 5

  /** An entry of `recent_databases`: `{"path": ..., "version": ...}`. */
  datatype DatabaseEntry = DatabaseEntry(path: string, version: int)

  /** An entry of `decrypt_history`. */
  datatype DecryptRecord = DecryptRecord(wxid: string, name: string, dbPath: string, version: int, timestamp: real)

  /** `recent_contacts` after `add_recent_contact(config, wxid)`. */
  function RecentContactsAfter(contacts: seq<string>, wxid: string): seq<string> {
    if wxid == "" then contacts
    else Take([wxid] + OtherContacts(contacts, wxid), MaxRecentContacts)
  }

  /** The list with the first occurrence of `wxid` taken out, if any. */
  function OtherContacts(contacts: seq<string>, wxid: string): seq<string> {
    if wxid in contacts then RemoveFirst(contacts, wxid) else contacts
  }

  /** The selected contact goes to the front, the list never exceeds ten
      entries, and the others keep their order: they are the previous list
      without the selected contact, cut to nine. */
  lemma RecentContactFront(contacts: seq<string>, wxid: string)
    requires wxid != ""
    ensures var r := RecentContactsAfter(contacts, wxid);
      && |r| >= 1 && r[0] == wxid
      && |r| <= MaxRecentContacts
      && r[1..] == Take(OtherContacts(contacts, wxid), MaxRecentContacts - 1)
      && IsSubsequence(r[1..], contacts)
  {
    var others := OtherContacts(contacts, wxid);
    var r := RecentContactsAfter(contacts, wxid);
    assert r[1..] == Take(others, MaxRecentContacts - 1);
    if wxid in contacts {
      RemoveFirstAt(contacts, wxid, IndexOf(contacts, wxid));
      DeleteAtIsSubsequence(contacts, IndexOf(contacts, wxid));
    } else {
      SelfIsSubsequence(contacts);
    }
    PrefixOfSubsequence(others, contacts, |r[1..]|);
  }

  /** No entry is lost while there is room: the list grows by one for a new
      contact and keeps its length for a known one, up to ten. */
  lemma RecentContactsLength(contacts: seq<string>, wxid: string)
    requires wxid != ""
    ensures var n := if wxid in contacts then |contacts| else |contacts| + 1;
      |RecentContactsAfter(contacts, wxid)| == if n < MaxRecentContacts then n else MaxRecentContacts
  {
    if wxid in contacts { RemoveFirstMultiset(contacts, wxid); }
  }

  /** Starting from a list without duplicates, the list stays without
      duplicates and holds the selected contact exactly once. */
  lemma RecentContactsUnique(contacts: seq<string>, wxid: string)
    requires wxid != "" && NoDuplicates(contacts)
    ensures NoDuplicates(RecentContactsAfter(contacts, wxid))
    ensures multiset(RecentContactsAfter(contacts, wxid))[wxid] == 1
  {
    var others := OtherContacts(contacts, wxid);
    if wxid in contacts {
      RemoveFirstAt(contacts, wxid, IndexOf(contacts, wxid));
      DeleteAtNoDuplicates(contacts, IndexOf(contacts, wxid));
    }
    assert wxid !in others;
    FrontNoDuplicates(wxid, others, MaxRecentContacts);
  }

  /** The first entry of `recent_databases` whose path is `path`. */
  function FindPath(dbs: seq<DatabaseEntry>, path: string): Option<nat> {
    FindFirst(dbs, (e: DatabaseEntry) => e.path == path)
  }

  /** The list with the first entry for `path` taken out, if there is one. */
  function WithoutFirstPath(dbs: seq<DatabaseEntry>, path: string): seq<DatabaseEntry> {
    match FindPath(dbs, path)
    case None => dbs
    case Some(i) => dbs[..i] + dbs[i + 1..]
  }

  /** `recent_databases` after `add_recent_database(config, dbDir, version)`. */
  function RecentDatabasesAfter(dbs: seq<DatabaseEntry>, dbDir: string, version: int): seq<DatabaseEntry> {
    if dbDir == "" then dbs
    else Take([DatabaseEntry(dbDir, version)] + WithoutFirstPath(dbs, dbDir), MaxRecentDatabases)
  }

  /** The new entry goes to the front, at most five entries are kept, and
      of the earlier entries only the first one with the same path is
      dropped; the others follow in their old order. */
  lemma RecentDatabaseFront(dbs: seq<DatabaseEntry>, dbDir: string, version: int)
    requires dbDir != ""
    ensures var r := RecentDatabasesAfter(dbs, dbDir, version);
      && |r| >= 1 && r[0] == DatabaseEntry(dbDir, version)
      && |r| <= MaxRecentDatabases
      && r[1..] == Take(WithoutFirstPath(dbs, dbDir), MaxRecentDatabases - 1)
      && IsSubsequence(r[1..], dbs)
  {
    var rest := WithoutFirstPath(dbs, dbDir);
    var r := RecentDatabasesAfter(dbs, dbDir, version);
    assert r[1..] == Take(rest, MaxRecentDatabases - 1);
    match FindPath(dbs, dbDir) {
      case None => SelfIsSubsequence(dbs);
      case Some(i) => DeleteAtIsSubsequence(dbs, i);
    }
    PrefixOfSubsequence(rest, dbs, |r[1..]|);
  }

  /** Exactly one earlier entry is dropped when the path was listed, none
      otherwise; entries before the dropped one have other paths. */
  lemma WithoutFirstPathDropsOne(dbs: seq<DatabaseEntry>, path: string)
    ensures (exists j :: 0 <= j < |dbs| && dbs[j].path == path) ==> |WithoutFirstPath(dbs, path)| == |dbs| - 1
    ensures (forall j :: 0 <= j < |dbs| ==> dbs[j].path != path) ==> WithoutFirstPath(dbs, path) == dbs
  {
    match FindPath(dbs, path)
    case None =>
    case Some(i) =>
  }

  /** With distinct paths before, the paths stay distinct and the new path
      is listed exactly once. */
  lemma RecentDatabasesUnique(dbs: seq<DatabaseEntry>, dbDir: string, version: int)
    requires dbDir != "" && DistinctPaths(dbs)
    ensures DistinctPaths(RecentDatabasesAfter(dbs, dbDir, version))
    ensures RecentDatabasesAfter(dbs, dbDir, version)[0].path == dbDir
  {
    var rest := WithoutFirstPath(dbs, dbDir);
    match FindPath(dbs, dbDir) {
      case None =>
      case Some(i) => DeleteAtDistinctPaths(dbs, i);
    }
    var full := [DatabaseEntry(dbDir, version)] + rest;
    ConsDistinctPaths(DatabaseEntry(dbDir, version), rest);
    PrefixDistinctPaths(full, |Take(full, MaxRecentDatabases)|);
  }

  /** An entry put in front of a list with distinct paths, none of them its
      own, gives a list with distinct paths. */
  lemma ConsDistinctPaths(e: DatabaseEntry, s: seq<DatabaseEntry>)
    requires DistinctPaths(s)
    requires forall a :: 0 <= a < |s| ==> s[a].path != e.path
    ensures DistinctPaths([e] + s)
  {
    var full := [e] + s;
    forall a, b | 0 <= a < b < |full| ensures full[a].path != full[b].path {
      assert full[b] == s[b - 1];
      if a > 0 { assert full[a] == s[a - 1]; }
    }
  }

  /** A prefix of a list with distinct paths has distinct paths. */
  lemma PrefixDistinctPaths(s: seq<DatabaseEntry>, n: nat)
    requires n <= |s| && DistinctPaths(s)
    ensures DistinctPaths(s[..n])
  {
    var p := s[..n];
    forall a, b | 0 <= a < b < |p| ensures p[a].path != p[b].path {
      assert p[a] == s[a] && p[b] == s[b];
    }
  }

  /** Taking out one entry of a list with distinct paths keeps the paths
      distinct, and the path taken out no longer occurs. */
  lemma DeleteAtDistinctPaths(dbs: seq<DatabaseEntry>, i: nat)
    requires i < |dbs| && DistinctPaths(dbs)
    ensures DistinctPaths(dbs[..i] + dbs[i + 1..])
    ensures forall e :: e in dbs[..i] + dbs[i + 1..] ==> e.path != dbs[i].path
  {
    var d := dbs[..i] + dbs[i + 1..];
    forall a, b | 0 <= a < b < |d| ensures d[a].path != d[b].path {
      var ia := if a < i then a else a + 1;
      var ib := if b < i then b else b + 1;
      assert d[a] == dbs[ia] && d[b] == dbs[ib];
    }
    forall a | 0 <= a < |d| ensures d[a].path != dbs[i].path {
      var ia := if a < i then a else a + 1;
      assert d[a] == dbs[ia];
    }
  }

  predicate DistinctPaths(dbs: seq<DatabaseEntry>) {
    forall a, b :: 0 <= a < b < |dbs| ==> dbs[a].path != dbs[b].path
  }

  /** The first `decrypt_history` entry for `wxid`. */
  function FindWxid(history: seq<DecryptRecord>, wxid: string): Option<nat> {
    FindFirst(history, (h: DecryptRecord) => h.wxid == wxid)
  }

  /** The record `add_decrypt_history` stores; the modification time of the
      database file is `mtime`, `None` when the file does not exist. */
  function NewDecryptRecord(wxid: string, name: string, dbPath: string, version: int, mtime: Option<real>): DecryptRecord {
    DecryptRecord(wxid, name, dbPath, version, mtime.GetOr(0.0))
  }

  /** `decrypt_history` after `add_decrypt_history`. */
  function DecryptHistoryAfter(history: seq<DecryptRecord>, item: DecryptRecord): seq<DecryptRecord> {
    if item.wxid == "" || item.dbPath == "" then history
    else match FindWxid(history, item.wxid)
      case Some(i) => history[i := item]
      case None => history + [item]
  }

  /** A known account has its first record replaced where it stands and the
      list keeps its length; every other record and its position stay. */
  lemma DecryptHistoryReplaces(history: seq<DecryptRecord>, item: DecryptRecord, i: nat)
    requires item.wxid != "" && item.dbPath != ""
    requires i < |history| && history[i].wxid == item.wxid
    requires forall j :: 0 <= j < i ==> history[j].wxid != item.wxid
    ensures var r := DecryptHistoryAfter(history, item);
      && |r| == |history| && r[i] == item
      && forall j :: 0 <= j < |r| && j != i ==> r[j] == history[j]
  {
    FindFirstAt(history, (h: DecryptRecord) => h.wxid == item.wxid, i);
  }

  /** A new account is appended at the end and the list grows by one. */
  lemma DecryptHistoryAppends(history: seq<DecryptRecord>, item: DecryptRecord)
    requires item.wxid != "" && item.dbPath != ""
    requires forall j :: 0 <= j < |history| ==> history[j].wxid != item.wxid
    ensures DecryptHistoryAfter(history, item) == history + [item]
  {
    FindFirstNone(history, (h: DecryptRecord) => h.wxid == item.wxid);
  }

  predicate DistinctAccounts(history: seq<DecryptRecord>) {
    forall a, b :: 0 <= a < b < |history| ==> history[a].wxid != history[b].wxid
  }

  /** With one record per account before, there is one record per account
      after, and the new record is in the list. */
  lemma DecryptHistoryUnique(history: seq<DecryptRecord>, item: DecryptRecord)
    requires item.wxid != "" && item.dbPath != "" && DistinctAccounts(history)
    ensures DistinctAccounts(DecryptHistoryAfter(history, item))
    ensures item in DecryptHistoryAfter(history, item)
  {
    var r := DecryptHistoryAfter(history, item);
    match FindWxid(history, item.wxid)
    case Some(i) =>
      assert r[i] == item;
      forall a, b | 0 <= a < b < |r| ensures r[a].wxid != r[b].wxid {
        if a != i && b != i { assert r[a] == history[a] && r[b] == history[b]; }
        else if a == i { assert r[a].wxid == history[a].wxid && r[b] == history[b]; }
        else { assert r[b].wxid == history[b].wxid && r[a] == history[a]; }
      }
    case None =>
      assert r[|history|] == item;
      forall a, b | 0 <= a < b < |r| ensures r[a].wxid != r[b].wxid {
        assert r[a] == history[a];
        if b < |history| { assert r[b] == history[b]; }
      }
  }

  /** The three list-valued entries of the configuration dictionary the
      application keeps in memory, which the `add_*` functions update in
      place. The constructor takes them as `load_config` delivered them
      (`recent_contacts`, `recent_databases`, `decrypt_history`); the other
      entries are plain values the model reads from the loaded map. */
  class AppConfig {
    var recentContacts: seq<string>
    var recentDatabases: seq<DatabaseEntry>
    var decryptHistory: seq<DecryptRecord>

    constructor (contacts: seq<string>, databases: seq<DatabaseEntry>, history: seq<DecryptRecord>)
      ensures recentContacts == contacts && recentDatabases == databases && decryptHistory == history
    {
      recentContacts, recentDatabases, decryptHistory := contacts, databases, history;
    }

    /** `add_recent_contact(config, wxid)`: moves `wxid` to the front of
        `recent_contacts` and cuts the list to ten entries. */
    method AddRecentContact(wxid: string)
      modifies this`recentContacts
      ensures recentContacts == RecentContactsAfter(old(recentContacts), wxid)
      ensures wxid == "" ==> recentContacts == old(recentContacts)
    {
      if wxid == "" {
        return;
      }
      if wxid in recentContacts {
        recentContacts := RemoveFirst(recentContacts, wxid);
      }
      recentContacts := [wxid] + recentContacts;
      if |recentContacts| > MaxRecentContacts {
        recentContacts := recentContacts[..MaxRecentContacts];
      }
    }

    /** `add_recent_database(config, dbDir, version)`: puts
        `{path, version}` at the front of `recent_databases`, after taking
        out the first earlier entry with the same path, and cuts the list to
        five entries. */
    method AddRecentDatabase(dbDir: string, version: int)
      modifies this`recentDatabases
      ensures recentDatabases == RecentDatabasesAfter(old(recentDatabases), dbDir, version)
      ensures dbDir == "" ==> recentDatabases == old(recentDatabases)
    {
      if dbDir == "" {
        return;
      }
      var item := DatabaseEntry(dbDir, version);
      ghost var before := recentDatabases;
      var i := 0;
      while i < |recentDatabases|
        invariant 0 <= i <= |recentDatabases|
        invariant recentDatabases == before
        invariant forall j :: 0 <= j < i ==> recentDatabases[j].path != dbDir
      {
        if recentDatabases[i].path == dbDir {
          RemoveFirstFoundEntry(recentDatabases, i);
          recentDatabases := RemoveFirst(recentDatabases, recentDatabases[i]);
          break;
        }
        i := i + 1;
      }
      if i == |before| {
        FindFirstNone(before, (e: DatabaseEntry) => e.path == dbDir);
      }
      recentDatabases := [item] + recentDatabases;
      if |recentDatabases| > MaxRecentDatabases {
        recentDatabases := recentDatabases[..MaxRecentDatabases];
      }
    }

    /** `add_decrypt_history(config, wxid, name, dbPath, version)`: replaces
        the first record of the same account in place, or appends a new one. */
    method AddDecryptHistory(wxid: string, name: string, dbPath: string, version: int, mtime: Option<real>)
      modifies this`decryptHistory
      ensures decryptHistory == DecryptHistoryAfter(old(decryptHistory), NewDecryptRecord(wxid, name, dbPath, version, mtime))
      ensures wxid == "" || dbPath == "" ==> decryptHistory == old(decryptHistory)
    {
      if wxid == "" || dbPath == "" {
        return;
      }
      var item := NewDecryptRecord(wxid, name, dbPath, version, mtime);
      var i := 0;
      while i < |decryptHistory|
        invariant 0 <= i <= |decryptHistory|
        invariant decryptHistory == old(decryptHistory)
        invariant forall j :: 0 <= j < i ==> decryptHistory[j].wxid != wxid
      {
        if decryptHistory[i].wxid == wxid {
          DecryptHistoryReplaces(decryptHistory, item, i);
          ghost var expected := DecryptHistoryAfter(decryptHistory, item);
          decryptHistory := decryptHistory[i := item];
          assert decryptHistory == expected;
          return;
        }
        i := i + 1;
      }
      DecryptHistoryAppends(decryptHistory, item);
      decryptHistory := decryptHistory + [item];
    }
  }

  /** `list.remove(item)` on the entry the loop of `add_recent_database`
      found first removes that very entry: an equal entry earlier in the
      list would have had the same path. */
  lemma RemoveFirstFoundEntry(dbs: seq<DatabaseEntry>, i: nat)
    requires i < |dbs|
    requires forall j :: 0 <= j < i ==> dbs[j].path != dbs[i].path
    ensures RemoveFirst(dbs, dbs[i]) == WithoutFirstPath(dbs, dbs[i].path)
  {
    var e := dbs[i];
    assert forall j :: 0 <= j < i ==> dbs[j] != e;
    RemoveFirstAt(dbs, e, i);
    FindPathAt(dbs, i);
  }

  /** The first entry for a path is found at its first position. */
  lemma FindPathAt(dbs: seq<DatabaseEntry>, i: nat)
    requires i < |dbs|
    requires forall j :: 0 <= j < i ==> dbs[j].path != dbs[i].path
    ensures FindPath(dbs, dbs[i].path) == Some(i)
  {
    FindFirstAt(dbs, (d: DatabaseEntry) => d.path == dbs[i].path, i);
  }
}
