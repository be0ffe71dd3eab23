/** Export archives (writer.rs, reader.rs, manifest.rs): what is written can be read back, whatever else
    was written and whatever was refused. */
module Export {
  import opened Prelude

  newtype Byte = b: int | 0 <= b < 256
  type Bytes = seq<Byte>

  datatype EntryType = EntitiesEntry(entityType: string, count: nat) | ScriptEntry | DefinitionEntry | ConfigEntry | SqliteEntry | OtherEntry

  datatype Entry = Entry(path: string, entryType: EntryType, size: nat, checksum: int)

  datatype Contents = Contents(
    hasSqlite: bool, hasScripts: bool, hasDefinitions: bool, hasConfig: bool,
    entityCounts: map<string, nat>, scriptCount: nat, definitionCount: nat, uncompressedSize: nat)

  datatype ExportSource = Live | Playtest(id: int, name: string) | Export(exportId: int, path: string)

  datatype Manifest = Manifest(
    version: nat, name: string, createdAt: nat, source: ExportSource, contents: Contents, tick: nat, notes: Option<string>)

  datatype ExportError =
    | Zip
    | Deserialization
    | UnsupportedVersion(found: nat)
    | ChecksumMismatch(path: string, expected: int, actual: int)

  const EXPORT_FORMAT_VERSION: nat := 1
  const NO_CONTENTS := Contents(false, false, false, false, map[], 0, 0, 0)

  /** A serialisation. */
  datatype Codec<!T> = Codec(encode: T -> Bytes, decode: Bytes -> Option<T>)

  ghost predicate RoundTrips<T(!new)>(c: Codec<T>) {
    forall x: T :: c.decode(c.encode(x)) == Some(x)
  }

  /** How each kind of content is serialised, and the checksum. */
  datatype Format<!V> = Format(
    list: Codec<seq<V>>, value: Codec<V>, text: Codec<string>, manifest: Codec<Manifest>, entries: Codec<seq<Entry>>,
    hash: Bytes -> int)

  ghost predicate Faithful<V(!new)>(f: Format<V>) {
    RoundTrips(f.list) && RoundTrips(f.value) && RoundTrips(f.text) && RoundTrips(f.manifest) && RoundTrips(f.entries)
  }

  // ---------- writing ----------

  datatype Item<V> =
    | Entities(entityType: string, list: seq<V>)
    | Script(scriptPath: string, text: string)
    | Definition(defPath: string, text: string)
    | Config(value: V)
    | Sqlite(data: Bytes)
    | Other(path: string, value: V)

  function EntitiesPath(entityType: string): string { "entities/" + entityType + ".cbor" }

  function PathOf<V>(item: Item<V>): string {
    match item
    case Entities(entityType, _) => EntitiesPath(entityType)
    case Script(path, _) => "scripts/" + path
    case Definition(path, _) => "definitions/" + path
    case Config(_) => "config.cbor"
    case Sqlite(_) => "state.sqlite"
    case Other(path, _) => path
  }

  function BytesOf<V>(f: Format<V>, item: Item<V>): Bytes {
    match item
    case Entities(_, list) => f.list.encode(list)
    case Script(_, text) => f.text.encode(text)
    case Definition(_, text) => f.text.encode(text)
    case Config(value) => f.value.encode(value)
    case Sqlite(data) => data
    case Other(_, value) => f.value.encode(value)
  }

  function TypeOf<V>(item: Item<V>): EntryType {
    match item
    case Entities(entityType, list) => EntitiesEntry(entityType, |list|)
    case Script(_, _) => ScriptEntry
    case Definition(_, _) => DefinitionEntry
    case Config(_) => ConfigEntry
    case Sqlite(_) => SqliteEntry
    case Other(_, _) => OtherEntry
  }

  function EntryOf<V>(f: Format<V>, item: Item<V>): Entry {
    Entry(PathOf(item), TypeOf(item), |BytesOf(f, item)|, f.hash(BytesOf(f, item)))
  }

  /** An empty list of entities is not written at all. */
  predicate Writes<V>(item: Item<V>) {
    item.Entities? ==> item.list != []
  }

  /** An archive in the making. */
  datatype Draft = Draft(files: map<string, Bytes>, entries: seq<Entry>, contents: Contents)

  const EMPTY_DRAFT := Draft(map[], [], NO_CONTENTS)

  /** What one more entry adds to the contents. */
  function Account(c: Contents, e: Entry): Contents {
    var c := c.(uncompressedSize := c.uncompressedSize + e.size);
    match e.entryType
    case EntitiesEntry(entityType, count) => c.(entityCounts := c.entityCounts[entityType := count])
    case ScriptEntry => c.(hasScripts := true, scriptCount := c.scriptCount + 1)
    case DefinitionEntry => c.(hasDefinitions := true, definitionCount := c.definitionCount + 1)
    case ConfigEntry => c.(hasConfig := true)
    case SqliteEntry => c.(hasSqlite := true)
    case OtherEntry => c
  }

  /** An archive has no two files of one name. */
  function Write<V>(f: Format<V>, d: Draft, item: Item<V>): Result<Draft, ExportError> {
    if !Writes(item) then Ok(d)
    else if PathOf(item) in d.files then Err(Zip)
    else Ok(Draft(d.files[PathOf(item) := BytesOf(f, item)], d.entries + [EntryOf(f, item)], Account(d.contents, EntryOf(f, item))))
  }

  /** Writes a list of items and carries on after what is refused. */
  function WriteAll<V>(f: Format<V>, items: seq<Item<V>>): Draft {
    if items == [] then EMPTY_DRAFT
    else
      var d := WriteAll(f, items[..|items| - 1]);
      match Write(f, d, items[|items| - 1])
      case Ok(more) => more
      case Err(_) => d
  }

  const MANIFEST_PATH := "manifest.cbor"
  const ENTRIES_PATH := "entries.cbor"

  function Finish<V>(f: Format<V>, header: Manifest, d: Draft): Result<map<string, Bytes>, ExportError> {
    if MANIFEST_PATH in d.files || ENTRIES_PATH in d.files then Err(Zip)
    else
      Ok(d.files[MANIFEST_PATH := f.manifest.encode(header.(contents := d.contents))][ENTRIES_PATH := f.entries.encode(d.entries)])
  }

  // ---------- reading ----------

  datatype Reader = Reader(files: map<string, Bytes>, manifest: Manifest, entries: seq<Entry>)

  function Open<V>(f: Format<V>, files: map<string, Bytes>): Result<Reader, ExportError> {
    if MANIFEST_PATH !in files then Err(Zip)
    else
      match f.manifest.decode(files[MANIFEST_PATH])
      case None => Err(Deserialization)
      case Some(manifest) =>
        if manifest.version > EXPORT_FORMAT_VERSION then Err(UnsupportedVersion(manifest.version))
        else if ENTRIES_PATH !in files then Err(Zip)
        else
          match f.entries.decode(files[ENTRIES_PATH])
          case None => Err(Deserialization)
          case Some(entries) => Ok(Reader(files, manifest, entries))
  }

  /** The path index keeps the last entry of a path. */
  function GetEntry(entries: seq<Entry>, path: string): Option<Entry> {
    if entries == [] then None
    else if entries[|entries| - 1].path == path then Some(entries[|entries| - 1])
    else GetEntry(entries[..|entries| - 1], path)
  }

  function ReadRaw<V>(f: Format<V>, r: Reader, path: string): Result<Bytes, ExportError> {
    if path !in r.files then Err(Zip)
    else
      var (data, entry) := (r.files[path], GetEntry(r.entries, path));
      if entry.Some? && f.hash(data) != entry.value.checksum
      then Err(ChecksumMismatch(path, entry.value.checksum, f.hash(data)))
      else Ok(data)
  }

  function Decoded<V, T>(f: Format<V>, r: Reader, codec: Codec<T>, path: string): Result<T, ExportError> {
    match ReadRaw(f, r, path)
    case Err(e) => Err(e)
    case Ok(data) =>
      match codec.decode(data)
      case None => Err(Deserialization)
      case Some(x) => Ok(x)
  }

  function ReadEntities<V>(f: Format<V>, r: Reader, entityType: string): Result<seq<V>, ExportError> {
    if GetEntry(r.entries, EntitiesPath(entityType)).None? then Ok([])
    else Decoded(f, r, f.list, EntitiesPath(entityType))
  }

  /** Reading with the function that goes with the way the item was written gives back the item. */
  predicate ReadsBack<V(==)>(f: Format<V>, r: Reader, item: Item<V>) {
    match item
    case Entities(entityType, list) => ReadEntities(f, r, entityType) == Ok(list)
    case Script(path, text) => Decoded(f, r, f.text, "scripts/" + path) == Ok(text)
    case Definition(path, text) => Decoded(f, r, f.text, "definitions/" + path) == Ok(text)
    case Config(value) => Decoded(f, r, f.value, "config.cbor") == Ok(value)
    case Sqlite(data) => ReadRaw(f, r, "state.sqlite") == Ok(data)
    case Other(path, value) => Decoded(f, r, f.value, path) == Ok(value)
  }

  /** The paths of the scripts, as they were given to the writer. */
  function ListScripts(entries: seq<Entry>): seq<string> {
    if entries == [] then []
    else
      var (front, e) := (ListScripts(entries[..|entries| - 1]), entries[|entries| - 1]);
      if e.entryType.ScriptEntry? then front + [if "scripts/" <= e.path then e.path[8..] else e.path] else front
  }

  // ---------- what is in a draft ----------

  /** The first item of its path that writes anything: exactly these are not refused. */
  ghost predicate Stored<V>(items: seq<Item<V>>, k: nat)
    requires k < |items|
  {
    Writes(items[k]) && forall j | 0 <= j < k && Writes(items[j]) :: PathOf(items[j]) != PathOf(items[k])
  }

  /** Every file has one entry, which describes it, and every entry a file. */
  ghost predicate Described<V>(f: Format<V>, d: Draft) {
    && (forall i | 0 <= i < |d.entries| ::
          var e := d.entries[i];
          e.path in d.files && e.checksum == f.hash(d.files[e.path]) && e.size == |d.files[e.path]|)
    && (forall i, j | 0 <= i < j < |d.entries| :: d.entries[i].path != d.entries[j].path)
    && forall p | p in d.files :: exists i :: 0 <= i < |d.entries| && d.entries[i].path == p
  }

  lemma {:induction false} EntryFound(entries: seq<Entry>, path: string)
    ensures match GetEntry(entries, path)
            case Some(e) => e.path == path && e in entries
            case None => forall i | 0 <= i < |entries| :: entries[i].path != path
  {
    if entries != [] {
      EntryFound(entries[..|entries| - 1], path);
    }
  }

  /** A file under a new name, with its entry. */
  lemma DescribedSnoc<V>(f: Format<V>, d: Draft, e: Entry, data: Bytes, c: Contents)
    requires Described(f, d) && e.path !in d.files && e.size == |data| && e.checksum == f.hash(data)
    ensures Described(f, Draft(d.files[e.path := data], d.entries + [e], c))
  {
    var after := Draft(d.files[e.path := data], d.entries + [e], c);
    forall p | p in after.files ensures exists i :: 0 <= i < |after.entries| && after.entries[i].path == p {
      if p in d.files {
        var i :| 0 <= i < |d.entries| && d.entries[i].path == p;
        assert after.entries[i].path == p;
      } else {
        assert after.entries[|d.entries|].path == p;
      }
    }
  }

  lemma WriteKeepsDescribed<V>(f: Format<V>, d: Draft, item: Item<V>)
    requires Described(f, d)
    ensures Write(f, d, item).Ok? ==> Described(f, Write(f, d, item).value)
  {
    hide PathOf, BytesOf, TypeOf, Account, Described;
    if Writes(item) && PathOf(item) !in d.files {
      DescribedSnoc(f, d, EntryOf(f, item), BytesOf(f, item), Account(d.contents, EntryOf(f, item)));
    }
  }

  /** Some item wrote the path. */
  ghost predicate Written<V>(items: seq<Item<V>>, path: string) {
    exists k :: 0 <= k < |items| && Writes(items[k]) && PathOf(items[k]) == path
  }

  lemma WrittenSnoc<V>(front: seq<Item<V>>, last: Item<V>, path: string)
    ensures Written(front + [last], path) <==> Written(front, path) || (Writes(last) && PathOf(last) == path)
  {
    hide PathOf, Writes;
    var all := front + [last];
    if k :| 0 <= k < |front| && Writes(front[k]) && PathOf(front[k]) == path {
      assert Writes(all[k]) && PathOf(all[k]) == path;
    }
    if Writes(last) && PathOf(last) == path {
      assert Writes(all[|front|]) && PathOf(all[|front|]) == path;
    }
  }

  /** A draft has a file for exactly the paths that some item wrote. */
  lemma {:induction false} FilesAreWritten<V>(f: Format<V>, items: seq<Item<V>>)
    ensures Described(f, WriteAll(f, items))
    ensures forall p :: p in WriteAll(f, items).files <==> Written(items, p)
  {
    if items != [] {
      hide PathOf, BytesOf, TypeOf, Account, Described, Writes, Written;
      var (front, last) := (items[..|items| - 1], items[|items| - 1]);
      FilesAreWritten(f, front);
      WriteKeepsDescribed(f, WriteAll(f, front), last);
      assert items == front + [last];
      forall p: string ensures p in WriteAll(f, items).files <==> Written(items, p) {
        WrittenSnoc(front, last, p);
      }
    }
  }

  /** And the content is that of the first such item. */
  lemma {:induction false} FilesHold<V>(f: Format<V>, items: seq<Item<V>>, k: nat)
    requires k < |items| && Stored(items, k)
    ensures var d := WriteAll(f, items); PathOf(items[k]) in d.files && d.files[PathOf(items[k])] == BytesOf(f, items[k])
  {
    hide PathOf, BytesOf, TypeOf, Account, Writes;
    var (front, last) := (items[..|items| - 1], items[|items| - 1]);
    assert forall j | 0 <= j < |front| :: items[j] == front[j];
    if k < |front| {
      FilesHold(f, front, k);
    } else {
      FilesAreWritten(f, front);
      assert !Written(front, PathOf(last));
    }
  }

  /** Export round trip. Whatever is written, with refused writes ignored: finishing succeeds if and only if
      nothing took a reserved name, and then the archive opens with the same manifest and entries, every
      item that was not refused reads back unchanged, and entity types without entities read as empty. */
  lemma RoundTrip<V(!new)>(f: Format<V>, header: Manifest, items: seq<Item<V>>)
    requires Faithful(f) && header.version <= EXPORT_FORMAT_VERSION
    ensures var d := WriteAll(f, items);
            var done := Finish(f, header, d);
            && (done.Ok? <==> !Written(items, MANIFEST_PATH) && !Written(items, ENTRIES_PATH))
            && (done.Ok? ==>
                  var again := Open(f, done.value);
                  && again.Ok?
                  && again.value.manifest == header.(contents := d.contents) && again.value.entries == d.entries
                  && (forall k | 0 <= k < |items| && Stored(items, k) :: ReadsBack(f, again.value, items[k]))
                  && forall t: string | !Written(items, EntitiesPath(t)) ::
                       ReadEntities(f, again.value, t) == Ok([]))
  {
    FilesAreWritten(f, items);
    var d := WriteAll(f, items);
    var done := Finish(f, header, d);
    hide WriteAll, Described, PathOf, ReadsBack, ReadEntities, Open;
    if done.Ok? {
      OpensAs(f, header, d);
      var r := Reader(done.value, header.(contents := d.contents), d.entries);
      forall k | 0 <= k < |items| && Stored(items, k) ensures ReadsBack(f, r, items[k]) {
        FilesHold(f, items, k);
        ReadsBackFromDraft(f, d, r, items[k]);
      }
      forall t: string | !Written(items, EntitiesPath(t)) ensures ReadEntities(f, r, t) == Ok([]) {
        NoEntry(f, d, r, t);
      }
    }
  }

  /** A finished archive opens with what was put into it, unless its format is newer than the reader. */
  lemma OpensAs<V(!new)>(f: Format<V>, header: Manifest, d: Draft)
    requires Faithful(f) && Finish(f, header, d).Ok?
    ensures var files := Finish(f, header, d).value;
            && Open(f, files) == (if header.version <= EXPORT_FORMAT_VERSION
                                  then Ok(Reader(files, header.(contents := d.contents), d.entries))
                                  else Err(UnsupportedVersion(header.version)))
            && forall p | p in d.files :: p in files && files[p] == d.files[p]
  {
    var manifest := header.(contents := d.contents);
    assert MANIFEST_PATH[0] != ENTRIES_PATH[0];
    assert f.manifest.decode(f.manifest.encode(manifest)) == Some(manifest);
    assert f.entries.decode(f.entries.encode(d.entries)) == Some(d.entries);
  }

  lemma NoEntry<V>(f: Format<V>, d: Draft, r: Reader, t: string)
    requires Described(f, d) && r.entries == d.entries && EntitiesPath(t) !in d.files
    ensures ReadEntities(f, r, t) == Ok([])
  {
    EntryFound(d.entries, EntitiesPath(t));
  }

  lemma ReadsBackFromDraft<V(!new)>(f: Format<V>, d: Draft, r: Reader, item: Item<V>)
    requires Faithful(f) && Described(f, d) && r.entries == d.entries
    requires PathOf(item) in d.files && d.files[PathOf(item)] == BytesOf(f, item)
    requires PathOf(item) in r.files && r.files[PathOf(item)] == BytesOf(f, item)
    ensures ReadsBack(f, r, item)
  {
    EntryFound(d.entries, PathOf(item));
    assert GetEntry(r.entries, PathOf(item)).Some?;
    assert ReadRaw(f, r, PathOf(item)) == Ok(BytesOf(f, item));
  }

  // ---------- damage ----------

  /** An archive in which one stored file has other bytes than were written still opens. Reading that file
      gives its new bytes if their checksum is the old one, which nobody can notice, and otherwise the two
      checksums; and every item at another path reads back unchanged. */
  lemma DamageIsFound<V(!new)>(f: Format<V>, header: Manifest, items: seq<Item<V>>, k: nat, data: Bytes)
    requires Faithful(f) && header.version <= EXPORT_FORMAT_VERSION && Finish(f, header, WriteAll(f, items)).Ok?
    requires k < |items| && Stored(items, k)
    ensures var (path, written) := (PathOf(items[k]), BytesOf(f, items[k]));
            var r := Open(f, Finish(f, header, WriteAll(f, items)).value[path := data]);
            && r.Ok?
            && ReadRaw(f, r.value, path) == (if f.hash(data) == f.hash(written) then Ok(data)
                                             else Err(ChecksumMismatch(path, f.hash(written), f.hash(data))))
            && forall j | 0 <= j < |items| && Stored(items, j) && PathOf(items[j]) != path :: ReadsBack(f, r.value, items[j])
  {
    var d := WriteAll(f, items);
    var (path, written) := (PathOf(items[k]), BytesOf(f, items[k]));
    var files := Finish(f, header, d).value;
    FilesAreWritten(f, items);
    FilesHold(f, items, k);
    OpensAs(f, header, d);
    OpensDamaged(f, header, d, path, data);
    hide WriteAll, PathOf, BytesOf, ReadsBack, Open, Finish;
    var r := Reader(files[path := data], header.(contents := d.contents), d.entries);
    assert ReadRaw(f, r, path) == (if f.hash(data) == f.hash(written) then Ok(data)
                                   else Err(ChecksumMismatch(path, f.hash(written), f.hash(data)))) by {
      EntryDescribes(f, d, path);
    }
    forall j | 0 <= j < |items| && Stored(items, j) && PathOf(items[j]) != path ensures ReadsBack(f, r, items[j]) {
      FilesHold(f, items, j);
      ReadsBackFromDraft(f, d, r, items[j]);
    }
  }

  lemma OpensDamaged<V(!new)>(f: Format<V>, header: Manifest, d: Draft, path: string, data: Bytes)
    requires Faithful(f) && header.version <= EXPORT_FORMAT_VERSION && Finish(f, header, d).Ok? && path in d.files
    ensures var files := Finish(f, header, d).value[path := data];
            Open(f, files) == Ok(Reader(files, header.(contents := d.contents), d.entries))
  {
    var manifest := header.(contents := d.contents);
    assert MANIFEST_PATH[0] != ENTRIES_PATH[0];
    assert f.manifest.decode(f.manifest.encode(manifest)) == Some(manifest);
    assert f.entries.decode(f.entries.encode(d.entries)) == Some(d.entries);
  }

  lemma EntryDescribes<V>(f: Format<V>, d: Draft, path: string)
    requires Described(f, d) && path in d.files
    ensures var e := GetEntry(d.entries, path); e.Some? && e.value.checksum == f.hash(d.files[path])
  {
    EntryFound(d.entries, path);
  }

  // ---------- what the manifest says ----------

  function CountScripts(entries: seq<Entry>): nat {
    if entries == [] then 0
    else CountScripts(entries[..|entries| - 1]) + if entries[|entries| - 1].entryType.ScriptEntry? then 1 else 0
  }

  function CountDefinitions(entries: seq<Entry>): nat {
    if entries == [] then 0
    else CountDefinitions(entries[..|entries| - 1]) + if entries[|entries| - 1].entryType.DefinitionEntry? then 1 else 0
  }

  function TotalSize(entries: seq<Entry>): nat {
    if entries == [] then 0 else TotalSize(entries[..|entries| - 1]) + entries[|entries| - 1].size
  }

  ghost predicate Has(entries: seq<Entry>, t: EntryType) {
    exists i :: 0 <= i < |entries| && entries[i].entryType == t
  }

  /** The contents describe the entries. */
  ghost predicate Summarises(c: Contents, entries: seq<Entry>) {
    Totals(c, entries) && CountsByType(c.entityCounts, entries)
  }

  ghost predicate Totals(c: Contents, entries: seq<Entry>) {
    && c.scriptCount == CountScripts(entries) && c.definitionCount == CountDefinitions(entries)
    && c.uncompressedSize == TotalSize(entries)
    && (c.hasScripts <==> Has(entries, ScriptEntry)) && (c.hasDefinitions <==> Has(entries, DefinitionEntry))
    && (c.hasConfig <==> Has(entries, ConfigEntry)) && (c.hasSqlite <==> Has(entries, SqliteEntry))
  }

  ghost predicate CountsByType(counts: map<string, nat>, entries: seq<Entry>) {
    forall t: string, n: nat :: Get(counts, t) == Some(n) <==> Has(entries, EntitiesEntry(t, n))
  }

  lemma HasSnoc(front: seq<Entry>, last: Entry)
    ensures forall t :: Has(front + [last], t) <==> Has(front, t) || last.entryType == t
  {
    var all := front + [last];
    forall t ensures Has(all, t) <==> Has(front, t) || last.entryType == t {
      if i :| 0 <= i < |front| && front[i].entryType == t {
        assert all[i].entryType == t;
      }
      if last.entryType == t {
        assert all[|front|].entryType == t;
      }
    }
  }

  lemma AccountTotals(c: Contents, entries: seq<Entry>, e: Entry)
    requires Totals(c, entries)
    ensures Totals(Account(c, e), entries + [e])
  {
    HasSnoc(entries, e);
    assert (entries + [e])[..|entries|] == entries;
    hide Has;
  }

  lemma AccountCounts(c: Contents, entries: seq<Entry>, e: Entry)
    requires CountsByType(c.entityCounts, entries)
    requires e.entryType.EntitiesEntry? ==> e.entryType.entityType !in c.entityCounts
    ensures CountsByType(Account(c, e).entityCounts, entries + [e])
  {
    HasSnoc(entries, e);
    hide Has;
    var after := Account(c, e).entityCounts;
    forall t: string, n: nat ensures Get(after, t) == Some(n) <==> Has(entries + [e], EntitiesEntry(t, n)) {
      assert Get(c.entityCounts, t) == Some(n) <==> Has(entries, EntitiesEntry(t, n));
      if e.entryType == EntitiesEntry(t, n) {
        assert t !in c.entityCounts;
      }
      if e.entryType.EntitiesEntry? && e.entryType.entityType == t {
        assert !Has(entries, EntitiesEntry(t, n));
      }
    }
  }

  lemma AccountSummarises(c: Contents, entries: seq<Entry>, e: Entry)
    requires Summarises(c, entries)
    requires e.entryType.EntitiesEntry? ==> e.entryType.entityType !in c.entityCounts
    ensures Summarises(Account(c, e), entries + [e])
  {
    hide Totals, CountsByType, Account;
    AccountTotals(c, entries, e);
    AccountCounts(c, entries, e);
  }

  /** The paths of the scripts that were stored, in the order in which they were written. */
  ghost function StoredScripts<V>(items: seq<Item<V>>): seq<string> {
    if items == [] then []
    else
      var (front, last) := (StoredScripts(items[..|items| - 1]), items[|items| - 1]);
      if last.Script? && Stored(items, |items| - 1) then front + [last.scriptPath] else front
  }

  /** Every counted entity type has its file. */
  ghost predicate CountsHaveFiles(d: Draft) {
    forall t | t in d.contents.entityCounts :: EntitiesPath(t) in d.files
  }

  lemma WriteKeepsSummary<V>(f: Format<V>, d: Draft, item: Item<V>)
    requires Summarises(d.contents, d.entries) && CountsHaveFiles(d) && Write(f, d, item).Ok?
    ensures var after := Write(f, d, item).value; Summarises(after.contents, after.entries) && CountsHaveFiles(after)
  {
    hide BytesOf, Account, Summarises, EntitiesPath;
    if Writes(item) {
      AccountSummarises(d.contents, d.entries, EntryOf(f, item));
      CountsAfter(d.contents, EntryOf(f, item));
    }
  }

  lemma CountsAfter(c: Contents, e: Entry)
    ensures Account(c, e).entityCounts.Keys == c.entityCounts.Keys + if e.entryType.EntitiesEntry? then {e.entryType.entityType} else {}
  {
  }

  lemma WriteListsScript<V>(f: Format<V>, d: Draft, item: Item<V>)
    requires Write(f, d, item).Ok?
    ensures ListScripts(Write(f, d, item).value.entries)
            == ListScripts(d.entries) + if item.Script? then [item.scriptPath] else []
  {
    hide BytesOf, Account;
    if Writes(item) {
      var (e, after) := (EntryOf(f, item), Write(f, d, item).value);
      assert after.entries[..|d.entries|] == d.entries && after.entries[|d.entries|] == e;
      if item.Script? {
        assert "scripts/" <= e.path && e.path[8..] == item.scriptPath;
      }
    }
  }

  /** The manifest counts, flags and total size are the folds over the entries, and the list of scripts is
      what was stored. */
  lemma {:induction false} ManifestIsFold<V>(f: Format<V>, items: seq<Item<V>>)
    ensures var d := WriteAll(f, items);
            && Summarises(d.contents, d.entries) && CountsHaveFiles(d)
            && ListScripts(d.entries) == StoredScripts(items)
  {
    if items != [] {
      hide PathOf, BytesOf, TypeOf, Account, Summarises, CountsHaveFiles, ListScripts, Described;
      var (front, last) := (items[..|items| - 1], items[|items| - 1]);
      var before := WriteAll(f, front);
      ManifestIsFold(f, front);
      FilesAreWritten(f, front);
      assert forall k | 0 <= k < |front| :: items[k] == front[k];
      assert Stored(items, |front|) <==> Writes(last) && PathOf(last) !in before.files;
      if Write(f, before, last).Ok? {
        WriteKeepsSummary(f, before, last);
        WriteListsScript(f, before, last);
      }
    }
  }

  // ---------- the writer ----------

  /** What every write does to the draft and returns. */
  predicate Wrote<V>(f: Format<V>, before: Draft, item: Item<V>, r: Result<(), ExportError>, after: Draft) {
    match Write(f, before, item)
    case Ok(d) => r == Ok(()) && after == d
    case Err(e) => r == Err(e) && after == before
  }

  class ExportWriter<!V> {
    const format: Format<V>
    const header: Manifest
    var files: map<string, Bytes>
    var entries: seq<Entry>
    var contents: Contents

    constructor (format: Format<V>, name: string, createdAt: nat, source: ExportSource, tick: nat, notes: Option<string>)
      ensures this.format == format && State() == EMPTY_DRAFT
      ensures header == Manifest(EXPORT_FORMAT_VERSION, name, createdAt, source, NO_CONTENTS, tick, notes)
    {
      this.format := format;
      header := Manifest(EXPORT_FORMAT_VERSION, name, createdAt, source, NO_CONTENTS, tick, notes);
      files, entries, contents := map[], [], NO_CONTENTS;
    }

    ghost function State(): Draft
      reads this
    {
      Draft(files, entries, contents)
    }

    method WriteEntities(entityType: string, list: seq<V>) returns (r: Result<(), ExportError>)
      modifies this
      ensures Wrote(format, old(State()), Entities(entityType, list), r, State())
    {
      if list == [] {
        return Ok(());
      }
      var path := EntitiesPath(entityType);
      var data := format.list.encode(list);
      r := StartFile(path, data);
      if r.Err? {
        return r;
      }
      entries := entries + [Entry(path, EntitiesEntry(entityType, |list|), |data|, format.hash(data))];
      contents := contents.(entityCounts := contents.entityCounts[entityType := |list|]);
      contents := contents.(uncompressedSize := contents.uncompressedSize + |data|);
    }

    /** Adds a file to the archive, which refuses a name it has. */
    method StartFile(path: string, data: Bytes) returns (r: Result<(), ExportError>)
      modifies this`files
      ensures r == if path in old(files) then Err(Zip) else Ok(())
      ensures files == if r.Ok? then old(files)[path := data] else old(files)
    {
      if path in files {
        return Err(Zip);
      }
      files := files[path := data];
      r := Ok(());
    }

    method WriteTextFile(path: string, text: string, entryType: EntryType) returns (r: Result<(), ExportError>)
      requires entryType.ScriptEntry? || entryType.DefinitionEntry?
      modifies this
      ensures var data := format.text.encode(text);
              var e := Entry(path, entryType, |data|, format.hash(data));
              if path in old(files) then r == Err(Zip) && State() == old(State())
              else r == Ok(()) && State() == Draft(old(files)[path := data], old(entries) + [e], Account(old(contents), e))
    {
      var data := format.text.encode(text);
      r := StartFile(path, data);
      if r.Err? {
        return r;
      }
      entries := entries + [Entry(path, entryType, |data|, format.hash(data))];
      if entryType.ScriptEntry? {
        contents := contents.(hasScripts := true, scriptCount := contents.scriptCount + 1);
      } else {
        contents := contents.(hasDefinitions := true, definitionCount := contents.definitionCount + 1);
      }
      contents := contents.(uncompressedSize := contents.uncompressedSize + |data|);
    }

    method WriteScript(path: string, text: string) returns (r: Result<(), ExportError>)
      modifies this
      ensures Wrote(format, old(State()), Script(path, text), r, State())
    {
      r := WriteTextFile("scripts/" + path, text, ScriptEntry);
    }

    method WriteDefinition(path: string, text: string) returns (r: Result<(), ExportError>)
      modifies this
      ensures Wrote(format, old(State()), Definition(path, text), r, State())
    {
      r := WriteTextFile("definitions/" + path, text, DefinitionEntry);
    }

    method WriteConfig(value: V) returns (r: Result<(), ExportError>)
      modifies this
      ensures Wrote(format, old(State()), Config(value), r, State())
    {
      var data := format.value.encode(value);
      r := StartFile("config.cbor", data);
      if r.Err? {
        return r;
      }
      entries := entries + [Entry("config.cbor", ConfigEntry, |data|, format.hash(data))];
      contents := contents.(hasConfig := true, uncompressedSize := contents.uncompressedSize + |data|);
    }

    method WriteSqlite(data: Bytes) returns (r: Result<(), ExportError>)
      modifies this
      ensures Wrote(format, old(State()), Sqlite(data), r, State())
    {
      r := StartFile("state.sqlite", data);
      if r.Err? {
        return r;
      }
      entries := entries + [Entry("state.sqlite", SqliteEntry, |data|, format.hash(data))];
      contents := contents.(hasSqlite := true, uncompressedSize := contents.uncompressedSize + |data|);
    }

    method WriteCbor(path: string, value: V) returns (r: Result<(), ExportError>)
      modifies this
      ensures Wrote(format, old(State()), Other(path, value), r, State())
    {
      var data := format.value.encode(value);
      r := StartFile(path, data);
      if r.Err? {
        return r;
      }
      entries := entries + [Entry(path, OtherEntry, |data|, format.hash(data))];
      contents := contents.(uncompressedSize := contents.uncompressedSize + |data|);
    }

    /** Closes the archive. The writer is used up by this, so what a failure leaves in it does not matter. */
    method Close() returns (r: Result<map<string, Bytes>, ExportError>)
      modifies this`files
      ensures r == Finish(format, header, old(State()))
    {
      assert MANIFEST_PATH[0] != ENTRIES_PATH[0];
      var started := StartFile(MANIFEST_PATH, format.manifest.encode(header.(contents := contents)));
      if started.Err? {
        return Err(started.error);
      }
      started := StartFile(ENTRIES_PATH, format.entries.encode(entries));
      if started.Err? {
        return Err(started.error);
      }
      r := Ok(files);
    }
  }
}
