/** Overlap of resolved file paths. */
module FilePaths {

  /** The path with a trailing slash. */
  function Slashed(p: string): string {
    if p != "" && p[|p| - 1] == '/' then p else p + "/"
  }

  /** `_paths_overlap`: equal, parent or child. */
  predicate Overlap(a: string, b: string) {
    a == b || Slashed(b) <= Slashed(a) || Slashed(a) <= Slashed(b)
  }

  /** Location `l` is `p` or lies inside it. */
  predicate Below(l: string, p: string) {
    Slashed(p) <= Slashed(l)
  }

  lemma PrefixesCompare(a: string, b: string, s: string)
    requires a <= s && b <= s
    ensures a <= b || b <= a
  {
    if |a| <= |b| {
      assert a == s[..|a|] == b[..|a|];
    } else {
      assert b == s[..|b|] == a[..|b|];
    }
  }

  /** A location below `p` that a write to `w` may touch shows that `p` and `w` overlap. */
  lemma TouchedOverlaps(l: string, p: string, w: string)
    requires Below(l, p) && Overlap(l, w)
    ensures Overlap(p, w)
  {
    if Slashed(w) <= Slashed(l) {
      PrefixesCompare(Slashed(p), Slashed(w), Slashed(l));
    } else {
      assert Slashed(p) <= Slashed(w);
    }
  }

  /** Overlap is exactly sharing a location: one that is inside both. */
  lemma OverlapShares(a: string, b: string)
    ensures Overlap(a, b) <==> exists l :: Below(l, a) && Below(l, b)
  {
    if Overlap(a, b) {
      if Slashed(b) <= Slashed(a) { assert Below(a, a) && Below(a, b); } else { assert Below(b, a) && Below(b, b); }
    }
    if l :| Below(l, a) && Below(l, b) {
      PrefixesCompare(Slashed(a), Slashed(b), Slashed(l));
    }
  }
}

/** The in-session cache of read-only tool calls, and its path index. */
module ActionCaching {
  import opened Values
  import opened FilePaths

  /** A call parameter. Lists and dicts cannot be hashed. */
  datatype Param = Text(s: string) | Number(n: real) | Flag(b: bool) | Nothing | Structure(id: int, empty: bool)

  type Params = map<string, Param>

  /** Python compares True with 1 and False with 0. */
  function Hashed(p: Param): Param {
    if p.Flag? then Number(if p.b then 1.0 else 0.0) else p
  }

  predicate Hashable(params: Params) {
    forall k | k in params :: !params[k].Structure?
  }

  datatype Key = Key(moduleId: string, action: string, params: Params)

  datatype Entry = Entry(result: string, paths: seq<string>)

  /** Path resolution, `str()` of a parameter, and the truth of a parameter are taken as given. */
  datatype Host = Host(resolve: string -> string, str: Param -> string)

  const READ_ACTIONS: set<(string, string)> := {
    ("filesystem", "list_directory"), ("filesystem", "read_file"), ("filesystem", "get_file_info"),
    ("filesystem", "search_files"), ("filesystem", "compute_checksum"), ("os_exec", "get_system_info"),
    ("os_exec", "get_env_var"), ("os_exec", "list_processes"), ("database", "list_tables"),
    ("database", "get_table_schema"), ("database", "fetch_results"), ("db_gateway", "introspect"),
    ("db_gateway", "count"), ("db_gateway", "find"), ("db_gateway", "find_one")
  }

  const WRITE_ACTIONS: set<(string, string)> := {
    ("filesystem", "write_file"), ("filesystem", "append_file"), ("filesystem", "delete_file"),
    ("filesystem", "create_directory"), ("filesystem", "move_file"), ("filesystem", "copy_file"),
    ("filesystem", "extract_archive"), ("filesystem", "create_archive")
  }

  predicate IsRead(m: string, a: string) { (m, a) in READ_ACTIONS }

  predicate IsWrite(m: string, a: string) { (m, a) in WRITE_ACTIONS }

  /** `_make_key` */
  function MakeKey(h: Host, m: string, a: string, params: Params): Key {
    Key(m, a, map k | k in params ::
      if k in {"path", "source", "directory"} && params[k].Text? then Text(h.resolve(params[k].s)) else Hashed(params[k]))
  }

  function PathAt(h: Host, params: Params, k: string): seq<string> {
    if k in params && params[k].Text? && params[k].s != "" then [h.resolve(params[k].s)] else []
  }

  /** `_extract_paths` */
  function ExtractPaths(h: Host, params: Params): seq<string> {
    PathAt(h, params, "path") + PathAt(h, params, "source") + PathAt(h, params, "directory") + PathAt(h, params, "file_path")
  }

  predicate TruthyAt(params: Params, k: string) {
    k in params &&
    match params[k]
    case Text(s) => s != ""
    case Number(n) => n != 0.0
    case Flag(b) => b
    case Nothing => false
    case Structure(_, empty) => !empty
  }

  function Destination(params: Params): Option<Param> {
    if TruthyAt(params, "destination") then Some(params["destination"])
    else if TruthyAt(params, "dest") then Some(params["dest"])
    else if TruthyAt(params, "dst") then Some(params["dst"])
    else None
  }

  function DestinationText(h: Host, p: Param): string {
    if p.Text? then p.s else h.str(p)
  }

  /** The paths that a write touches. */
  function WritePaths(h: Host, params: Params): seq<string> {
    ExtractPaths(h, params)
    + match Destination(params)
      case None => []
      case Some(d) => [h.resolve(DestinationText(h, d))]
  }

  // ---- Cache states ----

  datatype Store = Store(entries: map<Key, Entry>, index: map<string, set<Key>>)

  /** `index.setdefault(p, set()).add(key)` for the given paths. */
  function Indexed(index: map<string, set<Key>>, paths: set<string>, key: Key): map<string, set<Key>> {
    map p | p in index.Keys + paths :: (if p in index then index[p] else {}) + (if p in paths then {key} else {})
  }

  function Stored(s: Store, key: Key, entry: Entry): Store {
    Store(s.entries[key := entry], Indexed(s.index, Elements(entry.paths), key))
  }

  function Elements(paths: seq<string>): set<string> {
    set p | p in paths
  }

  /** Discard `key` from the buckets of the given paths; a bucket that becomes empty goes. */
  function Unindexed(index: map<string, set<Key>>, paths: set<string>, key: Key): map<string, set<Key>> {
    map p | p in index && (p in paths ==> index[p] - {key} != {}) :: if p in paths then index[p] - {key} else index[p]
  }

  function Removed(s: Store, key: Key): Store {
    if key in s.entries
    then Store(s.entries - {key}, Unindexed(s.index, Elements(s.entries[key].paths), key))
    else s
  }

  lemma IndexedNone(index: map<string, set<Key>>, key: Key)
    ensures Indexed(index, {}, key) == index
  {
    forall p | p in index ensures Indexed(index, {}, key)[p] == index[p] {}
  }

  lemma IndexedOne(index: map<string, set<Key>>, paths: set<string>, p: string, key: Key)
    ensures var now := Indexed(index, paths, key);
      Indexed(index, paths + {p}, key) == now[p := (if p in now then now[p] else {}) + {key}]
  {
    var now, next := Indexed(index, paths, key), Indexed(index, paths + {p}, key);
    var updated := now[p := (if p in now then now[p] else {}) + {key}];
    assert next.Keys == updated.Keys;
    forall q | q in next ensures next[q] == updated[q] {
      assert q == p || (q in paths + {p} <==> q in paths);
    }
  }

  lemma IndexedNext(index: map<string, set<Key>>, paths: seq<string>, i: nat, key: Key)
    requires i < |paths|
    ensures var now, p := Indexed(index, Elements(paths[..i]), key), paths[i];
      Indexed(index, Elements(paths[..i + 1]), key) == now[p := (if p in now then now[p] else {}) + {key}]
  {
    assert Elements(paths[..i + 1]) == Elements(paths[..i]) + {paths[i]};
    IndexedOne(index, Elements(paths[..i]), paths[i], key);
  }


  lemma UnindexedOne(index: map<string, set<Key>>, paths: set<string>, p: string, key: Key)
    requires forall q | q in index :: index[q] != {}
    ensures var now, next := Unindexed(index, paths, key), Unindexed(index, paths + {p}, key);
      && (p !in now ==> next == now)
      && (p in now ==> now[p] != {} && next == if now[p] - {key} == {} then now - {p} else now[p := now[p] - {key}])
  {
    var now, next := Unindexed(index, paths, key), Unindexed(index, paths + {p}, key);
    if p in now {
      assert now[p] - {key} == index[p] - {key};
      assert next.Keys == if now[p] - {key} == {} then now.Keys - {p} else now.Keys;
    } else {
      assert next.Keys == now.Keys;
    }
  }

  /** The keys indexed under a path that overlaps a written one. */
  function Hit(index: map<string, set<Key>>, written: seq<string>): set<Key> {
    set p, k | p in index && k in index[p] && Touches(p, written) :: k
  }

  predicate Touches(p: string, written: seq<string>) {
    exists i :: 0 <= i < |written| && Overlap(p, written[i])
  }

  lemma TouchesOne(p: string, written: seq<string>, i: nat)
    requires i < |written|
    ensures Touches(p, written[..i + 1]) <==> Touches(p, written[..i]) || Overlap(p, written[i])
  {
    var shorter, longer := written[..i], written[..i + 1];
    assert longer[i] == written[i] && forall j | 0 <= j < i :: longer[j] == shorter[j];
    if Touches(p, shorter) {
      var j :| 0 <= j < i && Overlap(p, shorter[j]);
      assert Overlap(p, longer[j]);
    }
  }

  /** The entries of `s` without the keys `ks`, with the buckets that remain. */
  function Without(s: Store, ks: set<Key>): Store {
    Store(s.entries - ks,
          map p | p in Kept(s, ks) :: Bucket(s, ks, p))
  }

  function Bucket(s: Store, ks: set<Key>, p: string): set<Key>
    requires p in s.index
  {
    set k | k in s.index[p] && !(k in ks && k in s.entries && p in s.entries[k].paths)
  }

  function Kept(s: Store, ks: set<Key>): set<string> {
    set p | p in s.index && Bucket(s, ks, p) != {}
  }

  ghost predicate NoEmptyBuckets(s: Store) {
    forall p | p in s.index :: s.index[p] != {}
  }

  lemma BucketOneLess(s: Store, done: set<Key>, key: Key, p: string)
    requires p in s.index && key !in done
    ensures Bucket(s, done + {key}, p)
         == if key in s.entries && p in s.entries[key].paths then Bucket(s, done, p) - {key} else Bucket(s, done, p)
  {
  }

  /** What the two ways of dropping a key leave for one path. */
  lemma BucketAt(s: Store, done: set<Key>, key: Key, p: string)
    requires key in s.entries && key !in done
    ensures var u, r := Without(s, done + {key}).index, Unindexed(Without(s, done).index, Elements(s.entries[key].paths), key);
      (p in u <==> p in r) && (p in u ==> u[p] == r[p])
  {
    if p in s.index {
      BucketOneLess(s, done, key, p);
    }
  }

  lemma SameMap<K, V>(a: map<K, V>, b: map<K, V>)
    requires forall k :: (k in a <==> k in b) && (k in a ==> a[k] == b[k])
    ensures a == b
  {
  }

  lemma IndexOneLess(s: Store, done: set<Key>, key: Key)
    requires key !in done
    ensures Without(s, done + {key}).index
         == if key in s.entries then Unindexed(Without(s, done).index, Elements(s.entries[key].paths), key) else Without(s, done).index
  {
    if key in s.entries {
      forall p { BucketAt(s, done, key, p); }
      SameMap(Without(s, done + {key}).index, Unindexed(Without(s, done).index, Elements(s.entries[key].paths), key));
    } else {
      forall p | p in s.index { BucketOneLess(s, done, key, p); }
      assert Kept(s, done + {key}) == Kept(s, done);
    }
  }

  lemma RemoveOne(s: Store, done: set<Key>, key: Key)
    requires NoEmptyBuckets(s) && key !in done
    ensures Removed(Without(s, done), key) == Without(s, done + {key})
    ensures NoEmptyBuckets(Without(s, done))
  {
    IndexOneLess(s, done, key);
    assert s.entries - done - {key} == s.entries - (done + {key});
    if key in s.entries {
      assert Without(s, done).entries[key] == s.entries[key];
    }
  }

  lemma RemoveNone(s: Store)
    requires NoEmptyBuckets(s)
    ensures Without(s, {}) == s
  {
    forall p | p in s.index ensures Bucket(s, {}, p) == s.index[p] {}
    assert Without(s, {}).index.Keys == s.index.Keys;
    assert Without(s, {}).entries == s.entries;
  }

  lemma WithoutNoEmpty(s: Store, ks: set<Key>)
    ensures NoEmptyBuckets(Without(s, ks))
  {
  }

  // ---- What the cache operations compute ----

  function Cached(h: Host, enabled: bool, s: Store, m: string, a: string, params: Params): Result<Option<string>> {
    if !enabled || !IsRead(m, a) then Ok(None)
    else if !Hashable(params) then Err("unhashable type")
    else
      var key := MakeKey(h, m, a, params);
      Ok(if key in s.entries then Some(s.entries[key].result) else None)
  }

  function AfterPut(h: Host, enabled: bool, s: Store, m: string, a: string, params: Params, result: string): Store {
    if !enabled || !IsRead(m, a) then s
    else Stored(s, MakeKey(h, m, a, params), Entry(result, ExtractPaths(h, params)))
  }

  function AfterWrite(h: Host, enabled: bool, s: Store, m: string, a: string, params: Params): Store {
    if !enabled || !IsWrite(m, a) then s else Without(s, Hit(s.index, WritePaths(h, params)))
  }

  class ActionSessionCache {
    const host: Host
    const enabled: bool

    var cache: map<Key, Entry>
    var pathIndex: map<string, set<Key>>
    var hits: nat
    var misses: nat
    var invalidations: nat

    constructor (host: Host, enabled: bool)
      ensures this.host == host && this.enabled == enabled
      ensures Contents() == Store(map[], map[]) && hits == misses == invalidations == 0
    {
      this.host, this.enabled := host, enabled;
      cache, pathIndex, hits, misses, invalidations := map[], map[], 0, 0, 0;
    }

    function Contents(): Store
      reads this
    {
      Store(cache, pathIndex)
    }

    /** `Err` is the TypeError of hashing a key with a list or a dict in it. */
    method Get(m: string, a: string, params: Params) returns (r: Result<Option<string>>)
      modifies `hits, `misses
      ensures r == Cached(host, enabled, Contents(), m, a, params)
      ensures hits + misses == old(hits + misses) + (if enabled && IsRead(m, a) && Hashable(params) then 1 else 0)
      ensures hits == old(hits) + (if r.Ok? && r.value.Some? then 1 else 0)
    {
      if !enabled || !IsRead(m, a) { return Ok(None); }
      if !Hashable(params) { return Err("unhashable type"); }
      var key := MakeKey(host, m, a, params);
      if key in cache {
        hits := hits + 1;
        r := Ok(Some(cache[key].result));
      } else {
        misses := misses + 1;
        r := Ok(None);
      }
    }

    method Put(m: string, a: string, params: Params, result: string)
      requires enabled && IsRead(m, a) ==> Hashable(params)
      modifies `cache, `pathIndex
      ensures Contents() == AfterPut(host, enabled, old(Contents()), m, a, params, result)
    {
      if !enabled || !IsRead(m, a) { return; }
      var key := MakeKey(host, m, a, params);
      var paths := ExtractPaths(host, params);
      cache := cache[key := Entry(result, paths)];
      ghost var before := pathIndex;
      IndexedNone(before, key);
      for i := 0 to |paths|
        invariant cache == old(cache)[key := Entry(result, paths)]
        invariant pathIndex == Indexed(before, Elements(paths[..i]), key)
      {
        IndexedNext(before, paths, i, key);
        var bucket := if paths[i] in pathIndex then pathIndex[paths[i]] else {};
        pathIndex := pathIndex[paths[i] := bucket + {key}];
      }
      assert paths[..|paths|] == paths;
    }

    /** Drop one key from the buckets of its paths. */
    method Discard(key: Key, paths: seq<string>)
      requires NoEmptyBuckets(Contents())
      modifies `pathIndex
      ensures pathIndex == Unindexed(old(pathIndex), Elements(paths), key)
    {
      assert Unindexed(pathIndex, {}, key) == pathIndex;
      for j := 0 to |paths|
        invariant pathIndex == Unindexed(old(pathIndex), Elements(paths[..j]), key)
      {
        var p := paths[j];
        assert Elements(paths[..j + 1]) == Elements(paths[..j]) + {p};
        UnindexedOne(old(pathIndex), Elements(paths[..j]), p, key);
        if p in pathIndex && pathIndex[p] != {} {
          var bucket := pathIndex[p] - {key};
          if bucket == {} {
            pathIndex := pathIndex - {p};
          } else {
            pathIndex := pathIndex[p := bucket];
          }
        }
      }
      assert paths[..|paths|] == paths;
    }

    /** The keys under overlapping paths, gathered path by path. */
    method Overlapping(written: seq<string>) returns (keys: set<Key>)
      ensures keys == Hit(pathIndex, written)
    {
      keys := {};
      for i := 0 to |written|
        invariant keys == Hit(pathIndex, written[..i])
      {
        var todo := pathIndex.Keys;
        ghost var done: set<string> := {};
        ghost var start := keys;
        while todo != {}
          invariant todo !! done && todo + done == pathIndex.Keys
          invariant keys == start + set p, k | p in pathIndex && p in done && k in pathIndex[p] && Overlap(p, written[i]) :: k
        {
          var p :| p in todo;
          if Overlap(p, written[i]) {
            keys := keys + pathIndex[p];
          }
          todo, done := todo - {p}, done + {p};
        }
        forall p ensures Touches(p, written[..i + 1]) <==> Touches(p, written[..i]) || Overlap(p, written[i]) {
          TouchesOne(p, written, i);
        }
      }
      assert written[..|written|] == written;
    }

    /** Remove the given keys, one by one. */
    method RemoveAll(keys: set<Key>)
      requires NoEmptyBuckets(Contents())
      modifies `cache, `pathIndex
      ensures Contents() == Without(old(Contents()), keys)
    {
      ghost var before := Contents();
      RemoveNone(before);
      var todo := keys;
      ghost var done: set<Key> := {};
      while todo != {}
        invariant todo !! done && todo + done == keys
        invariant Contents() == Without(before, done)
      {
        var key :| key in todo;
        RemoveOne(before, done, key);
        if key in cache {
          var paths := cache[key].paths;
          cache := cache - {key};
          Discard(key, paths);
        }
        todo, done := todo - {key}, done + {key};
      }
      assert done == keys;
    }

    method InvalidateForWrite(m: string, a: string, params: Params) returns (count: nat)
      requires NoEmptyBuckets(Contents())
      modifies `cache, `pathIndex, `invalidations
      ensures Contents() == AfterWrite(host, enabled, old(Contents()), m, a, params)
      ensures count == if enabled && IsWrite(m, a) then |Hit(old(pathIndex), WritePaths(host, params))| else 0
      ensures invalidations == old(invalidations) + count
    {
      if !enabled || !IsWrite(m, a) { return 0; }
      var written := WritePaths(host, params);
      if written == [] {
        RemoveNone(Contents());
        assert Hit(pathIndex, written) == {};
        return 0;
      }
      var keys := Overlapping(written);
      RemoveAll(keys);
      count := |keys|;
      invalidations := invalidations + count;
    }

    method Clear()
      modifies `cache, `pathIndex
      ensures Contents() == Store(map[], map[])
    {
      cache, pathIndex := map[], map[];
    }
  }
}
