/** The in-memory chat index and the start-up scan that fills it: a recursive walk over the
    base directory that loads every `result.json` and registers it under its directory's path
    relative to the base. The directory tree is a value; reading it is not modelled. */
module ChatIndex {
  import opened Wrappers
  import opened Strings
  import opened Model
  import opened Ingest

  /** A directory entry as a listing with file types reports it. `File.content` is None when the
      file cannot be read; a `Dir` that cannot be listed has `readable` false. */
  datatype Entry =
    | File(name: string, content: Option<string>)
    | Dir(name: string, readable: bool, listing: seq<Entry>)

  /** Entries the scan never enters or loads. */
  predicate Skipped(name: string) {
    name == "node_modules" || StartsWith(name, ".")
  }

  const ExportFileName: string := "result.json"

  /** The index key of a directory: its path relative to the base, "" for the base itself. */
  function RelativePath(dir: seq<string>): string {
    Join(dir, "/")
  }

  /** The base name of the directory that holds an export; `rootName` is the base's own. */
  function DirName(rootName: string, dir: seq<string>): string {
    if dir == [] then rootName else Last(dir)
  }

  /** The (key, record) pairs a scan of `entries` inside `dir` inserts, in insertion order. */
  function LoadsOf(rootName: string, dir: seq<string>, entries: seq<Entry>, o: Oracles): seq<(string, ChatRecord)>
    decreases entries
  {
    if entries == [] then []
    else LoadsOf(rootName, dir, entries[..|entries| - 1], o) + LoadsOfEntry(rootName, dir, Last(entries), o)
  }

  function LoadsOfEntry(rootName: string, dir: seq<string>, e: Entry, o: Oracles): seq<(string, ChatRecord)>
    decreases e
  {
    if Skipped(e.name) then []
    else match e
      case Dir(n, readable, listing) =>
        if readable then LoadsOf(rootName, dir + [n], listing, o) else []
      case File(n, content) =>
        if n == ExportFileName && content.Some?
        then [(RelativePath(dir), Load(content.value, DirName(rootName, dir), RelativePath(dir), o).1)]
        else []
  }

  /** Every record a scan loads is filed under its own `path`. */
  lemma {:induction false} LoadsArePathKeyed(rootName: string, dir: seq<string>, entries: seq<Entry>, o: Oracles)
    ensures forall p :: p in LoadsOf(rootName, dir, entries, o) ==> p.1.path == p.0
    decreases entries
  {
    if entries != [] {
      LoadsArePathKeyed(rootName, dir, entries[..|entries| - 1], o);
      LoadsOfEntryArePathKeyed(rootName, dir, Last(entries), o);
    }
  }

  lemma {:induction false} LoadsOfEntryArePathKeyed(rootName: string, dir: seq<string>, e: Entry, o: Oracles)
    ensures forall p :: p in LoadsOfEntry(rootName, dir, e, o) ==> p.1.path == p.0
    decreases e
  {
    if !Skipped(e.name) && e.Dir? && e.readable {
      LoadsArePathKeyed(rootName, dir + [e.name], e.listing, o);
    }
  }

  /** The shared index: a map from relative directory to chat record, and its keys in the order
      they were first inserted (the order a JavaScript `Map` iterates in). */
  class ChatIndex {
    var keys: seq<string>
    var chats: map<string, ChatRecord>

    /** Keys are distinct, are exactly the map's keys, and every record carries its own key. */
    ghost predicate Valid()
      reads this
    {
      && (forall i, j :: 0 <= i < j < |keys| ==> keys[i] != keys[j])
      && (forall k :: k in keys <==> k in chats)
      && (forall k :: k in chats ==> chats[k].path == k)
    }

    constructor ()
      ensures Valid() && keys == [] && chats == map[]
    {
      keys := [];
      chats := map[];
    }

    /** `chatsCache.set(key, chat)`: a new key goes to the end, an existing key keeps its place
        and its record is replaced. */
    method Insert(key: string, chat: ChatRecord)
      requires Valid() && chat.path == key
      modifies this
      ensures Valid()
      ensures chats == old(chats)[key := chat]
      ensures keys == if key in old(chats) then old(keys) else old(keys) + [key]
    {
      if key !in chats {
        keys := keys + [key];
      }
      chats := chats[key := chat];
    }

    /** `scanDirectory(dir)` over a listing: skip hidden and dependency entries, recurse into
        directories, load files named exactly `result.json`, insert each under its directory's
        relative path. An unreadable directory or file is passed over. */
    method ScanDirectory(rootName: string, dir: seq<string>, readable: bool, entries: seq<Entry>, o: Oracles)
      requires Valid()
      modifies this
      ensures Valid()
      ensures !readable ==> keys == old(keys) && chats == old(chats)
      ensures readable ==> chats == InsertAll(old(chats), LoadsOf(rootName, dir, entries, o))
      ensures readable ==> keys == InsertKeys(old(keys), LoadsOf(rootName, dir, entries, o))
      decreases entries
    {
      if !readable {
        return;
      }
      for i := 0 to |entries|
        invariant Valid()
        invariant chats == InsertAll(old(chats), LoadsOf(rootName, dir, entries[..i], o))
        invariant keys == InsertKeys(old(keys), LoadsOf(rootName, dir, entries[..i], o))
      {
        var entry := entries[i];
        assert entries[..i + 1][..i] == entries[..i];
        ghost var done := LoadsOf(rootName, dir, entries[..i], o);
        assert LoadsOf(rootName, dir, entries[..i + 1], o) == done + LoadsOfEntry(rootName, dir, entry, o);
        InsertAllConcat(old(chats), done, LoadsOfEntry(rootName, dir, entry, o));
        InsertKeysConcat(old(keys), done, LoadsOfEntry(rootName, dir, entry, o));
        if !Skipped(entry.name) {
          match entry
          case Dir(name, subReadable, sub) =>
            ScanDirectory(rootName, dir + [name], subReadable, sub, o);
          case File(name, content) =>
            if name == ExportFileName && content.Some? {
              var relPath := RelativePath(dir);
              var tier, chat := LoadExport(content.value, DirName(rootName, dir), relPath, o);
              Insert(relPath, chat);
            }
        }
      }
      assert entries[..|entries|] == entries;
    }
  }

  /** `loadAllChats()`: a fresh index filled by one scan of the base directory. */
  method LoadAllChats(rootName: string, readable: bool, entries: seq<Entry>, o: Oracles) returns (index: ChatIndex)
    ensures fresh(index) && index.Valid()
    ensures index.chats == if readable then InsertAll(map[], LoadsOf(rootName, [], entries, o)) else map[]
    ensures index.keys == if readable then InsertKeys([], LoadsOf(rootName, [], entries, o)) else []
  {
    index := new ChatIndex();
    index.ScanDirectory(rootName, [], readable, entries, o);
  }

  /** The key order after inserting `loads` in order: a key joins at the end the first time it
      is inserted and keeps its place afterwards. */
  function InsertKeys(keys: seq<string>, loads: seq<(string, ChatRecord)>): seq<string> {
    if loads == [] then keys
    else
      var before := InsertKeys(keys, loads[..|loads| - 1]);
      if Last(loads).0 in before then before else before + [Last(loads).0]
  }

  lemma {:induction false} InsertKeysConcat(keys: seq<string>, a: seq<(string, ChatRecord)>, b: seq<(string, ChatRecord)>)
    ensures InsertKeys(keys, a + b) == InsertKeys(InsertKeys(keys, a), b)
    decreases |b|
  {
    if b == [] {
      assert a + b == a;
    } else {
      assert (a + b)[..|a + b| - 1] == a + b[..|b| - 1];
      InsertKeysConcat(keys, a, b[..|b| - 1]);
    }
  }

  /** The map after inserting `loads` in order: a later load with the same key overwrites. */
  function InsertAll(m: map<string, ChatRecord>, loads: seq<(string, ChatRecord)>): map<string, ChatRecord> {
    if loads == [] then m else InsertAll(m, loads[..|loads| - 1])[Last(loads).0 := Last(loads).1]
  }

  lemma {:induction false} InsertAllConcat(m: map<string, ChatRecord>, a: seq<(string, ChatRecord)>, b: seq<(string, ChatRecord)>)
    ensures InsertAll(m, a + b) == InsertAll(InsertAll(m, a), b)
    decreases |b|
  {
    if b == [] {
      assert a + b == a;
    } else {
      assert (a + b)[..|a + b| - 1] == a + b[..|b| - 1];
      InsertAllConcat(m, a, b[..|b| - 1]);
    }
  }

  /** No load after position `i` has the key of load `i`. */
  predicate LastWith(loads: seq<(string, ChatRecord)>, i: nat)
    requires i < |loads|
  {
    forall j :: i < j < |loads| ==> loads[j].0 != loads[i].0
  }

  /** After a scan a key is present exactly when it was present before or some load has it. */
  lemma {:induction false} InsertAllKeys(m: map<string, ChatRecord>, loads: seq<(string, ChatRecord)>, key: string)
    ensures key in InsertAll(m, loads) <==> key in m || exists i :: 0 <= i < |loads| && loads[i].0 == key
  {
    if loads != [] {
      var prefix := loads[..|loads| - 1];
      InsertAllKeys(m, prefix, key);
      if exists i :: 0 <= i < |prefix| && prefix[i].0 == key {
        var i :| 0 <= i < |prefix| && prefix[i].0 == key;
        assert loads[i].0 == key;
      }
      if exists i :: 0 <= i < |loads| && loads[i].0 == key {
        var i :| 0 <= i < |loads| && loads[i].0 == key;
        if i < |prefix| {
          assert prefix[i].0 == key;
        }
      }
    }
  }

  /** Each key holds the record of the LAST load with that key. */
  lemma {:induction false} InsertAllLastWins(m: map<string, ChatRecord>, loads: seq<(string, ChatRecord)>, i: nat)
    requires i < |loads| && LastWith(loads, i)
    ensures loads[i].0 in InsertAll(m, loads) && InsertAll(m, loads)[loads[i].0] == loads[i].1
  {
    if i < |loads| - 1 {
      var prefix := loads[..|loads| - 1];
      assert Last(loads).0 != loads[i].0;
      assert LastWith(prefix, i) by {
        forall j | i < j < |prefix| ensures prefix[j].0 != prefix[i].0 {
          assert prefix[j] == loads[j];
        }
      }
      InsertAllLastWins(m, prefix, i);
    }
  }

  /** A key no load has keeps the record it had. */
  lemma {:induction false} InsertAllUntouched(m: map<string, ChatRecord>, loads: seq<(string, ChatRecord)>, key: string)
    requires key in m && forall i :: 0 <= i < |loads| ==> loads[i].0 != key
    ensures key in InsertAll(m, loads) && InsertAll(m, loads)[key] == m[key]
  {
    if loads != [] {
      var prefix := loads[..|loads| - 1];
      assert forall i :: 0 <= i < |prefix| ==> prefix[i] == loads[i];
      InsertAllUntouched(m, prefix, key);
    }
  }

}
