/** The path index is exact, and an agent cannot tell that its reads are cached. */
module CacheTransparency {
  import opened Values
  import opened FilePaths
  import opened ActionCaching

  // ---- The index ----

  ghost function Holders(entries: map<Key, Entry>, p: string): set<Key> {
    set k | k in entries && p in entries[k].paths
  }

  ghost function IndexedPaths(entries: map<Key, Entry>): set<string> {
    set k, p | k in entries && p in entries[k].paths :: p
  }

  /** The inverted index: every path of an entry, with the keys of the entries that have it. */
  ghost function IndexOf(entries: map<Key, Entry>): map<string, set<Key>> {
    map p | p in IndexedPaths(entries) :: Holders(entries, p)
  }

  function KeyPathAt(k: Key, name: string): seq<string> {
    if name in k.params && k.params[name].Text? then [k.params[name].s] else []
  }

  /** The paths of an entry can be read off its key. */
  function KeyPaths(h: Host, k: Key): seq<string> {
    KeyPathAt(k, "path") + KeyPathAt(k, "source") + KeyPathAt(k, "directory") + PathAt(h, k.params, "file_path")
  }

  /** No path parameter is the empty string. */
  predicate NoEmptyPaths(params: Params) {
    forall name | name in {"path", "source", "directory"} && name in params :: params[name] != Text("")
  }

  lemma PathFromKey(h: Host, m: string, a: string, params: Params, name: string)
    requires name in {"path", "source", "directory"}
    ensures |PathAt(h, params, name)| <= |KeyPathAt(MakeKey(h, m, a, params), name)|
    ensures PathAt(h, params, name) == KeyPathAt(MakeKey(h, m, a, params), name) <==> (name in params ==> params[name] != Text(""))
  {
  }

  lemma SamePieces<T>(a: seq<T>, b: seq<T>, c: seq<T>, x: seq<T>, y: seq<T>, z: seq<T>, rest: seq<T>)
    requires |a| <= |x| && |b| <= |y| && |c| <= |z|
    ensures a + b + c + rest == x + y + z + rest <==> a == x && b == y && c == z
  {
    var p, q := a + b + c + rest, x + y + z + rest;
    if p == q {
      assert |a| == |x| && |b| == |y| && |c| == |z|;
      assert p[..|a|] == a && q[..|a|] == x;
      assert p[|a|..|a| + |b|] == b && q[|a|..|a| + |b|] == y;
      assert p[|a| + |b|..|a| + |b| + |c|] == c && q[|a| + |b|..|a| + |b| + |c|] == z;
    }
  }

  lemma PathsFromKey(h: Host, m: string, a: string, params: Params)
    ensures ExtractPaths(h, params) == KeyPaths(h, MakeKey(h, m, a, params)) <==> NoEmptyPaths(params)
  {
    var k := MakeKey(h, m, a, params);
    PathFromKey(h, m, a, params, "path");
    PathFromKey(h, m, a, params, "source");
    PathFromKey(h, m, a, params, "directory");
    assert PathAt(h, params, "file_path") == PathAt(h, k.params, "file_path");
    SamePieces(PathAt(h, params, "path"), PathAt(h, params, "source"), PathAt(h, params, "directory"),
               KeyPathAt(k, "path"), KeyPathAt(k, "source"), KeyPathAt(k, "directory"), PathAt(h, params, "file_path"));
  }

  /** The index holds exactly the (path, key) pairs of the entries, and no empty bucket. */
  ghost predicate Exact(h: Host, s: Store) {
    && s.index == IndexOf(s.entries)
    && forall k | k in s.entries :: s.entries[k].paths == KeyPaths(h, k) && IsRead(k.moduleId, k.action)
  }

  lemma ExactNoEmpty(h: Host, s: Store)
    requires Exact(h, s)
    ensures NoEmptyBuckets(s)
  {
    forall p | p in s.index ensures s.index[p] != {} {
      var k :| k in s.entries && p in s.entries[k].paths;
      assert k in Holders(s.entries, p);
    }
  }

  lemma InitiallyExact(h: Host)
    ensures Exact(h, Store(map[], map[]))
  {
  }

  lemma HoldersPut(entries: map<Key, Entry>, key: Key, entry: Entry, p: string)
    requires key in entries ==> Elements(entries[key].paths) <= Elements(entry.paths)
    ensures Holders(entries[key := entry], p) == Holders(entries, p) + (if p in entry.paths then {key} else {})
  {
    if key in entries && p in entries[key].paths {
      assert p in Elements(entries[key].paths) && p in Elements(entry.paths);
    }
  }

  lemma PathsPut(entries: map<Key, Entry>, key: Key, entry: Entry)
    requires key in entries ==> Elements(entries[key].paths) <= Elements(entry.paths)
    ensures IndexedPaths(entries[key := entry]) == IndexedPaths(entries) + Elements(entry.paths)
  {
    var next := entries[key := entry];
    forall p | p in IndexedPaths(entries) ensures p in IndexedPaths(next) {
      var k :| k in entries && p in entries[k].paths;
      if k == key {
        assert p in Elements(entries[key].paths) && p in Elements(entry.paths);
      }
      assert p in next[k].paths;
    }
    forall p | p in Elements(entry.paths) ensures p in IndexedPaths(next) {
      assert p in next[key].paths;
    }
  }

  /** Storing an entry keeps the index exact if and only if no path of an entry that it overwrites is missing from it. */
  lemma IndexPut(entries: map<Key, Entry>, key: Key, entry: Entry)
    ensures IndexOf(entries[key := entry]) == Indexed(IndexOf(entries), Elements(entry.paths), key)
            <==> (key in entries ==> Elements(entries[key].paths) <= Elements(entry.paths))
  {
    var next, index := IndexOf(entries[key := entry]), IndexOf(entries);
    if key in entries && !(Elements(entries[key].paths) <= Elements(entry.paths)) {
      var p :| p in Elements(entries[key].paths) && p !in Elements(entry.paths);
      StalePair(entries, key, entry, p);
    } else {
      PathsPut(entries, key, entry);
      forall p | p in next ensures next[p] == Indexed(index, Elements(entry.paths), key)[p] {
        HoldersPut(entries, key, entry, p);
        if p !in index {
          assert Holders(entries, p) == {};
        }
      }
    }
  }

  /** The pair of a path that the overwritten entry had and the new one has not stays in the index. */
  lemma StalePair(entries: map<Key, Entry>, key: Key, entry: Entry, p: string)
    requires key in entries && p in entries[key].paths && p !in entry.paths
    ensures IndexOf(entries[key := entry]) != Indexed(IndexOf(entries), Elements(entry.paths), key)
  {
    var next, now := IndexOf(entries[key := entry]), Indexed(IndexOf(entries), Elements(entry.paths), key);
    assert p in IndexedPaths(entries) && key in Holders(entries, p);
    assert p in now && key in now[p];
    assert key !in Holders(entries[key := entry], p);
    assert p in next ==> key !in next[p];
  }

  /** A read's entry keeps the index and the entries' paths exact if and only if no path parameter is empty. */
  lemma PutKeepsExact(h: Host, enabled: bool, s: Store, m: string, a: string, params: Params, result: string)
    requires Exact(h, s)
    ensures Exact(h, AfterPut(h, enabled, s, m, a, params, result)) <==> (enabled && IsRead(m, a) ==> NoEmptyPaths(params))
  {
    if enabled && IsRead(m, a) {
      var key, entry := MakeKey(h, m, a, params), Entry(result, ExtractPaths(h, params));
      PathsFromKey(h, m, a, params);
      IndexPut(s.entries, key, entry);
      var t := AfterPut(h, enabled, s, m, a, params, result);
      assert t.entries == s.entries[key := entry];
      assert key in t.entries && t.entries[key].paths == ExtractPaths(h, params);
    }
  }

  /** The entries that a full scan keeps. */
  ghost function Scanned(entries: map<Key, Entry>, written: seq<string>): map<Key, Entry> {
    map k | k in entries && !(exists p :: p in entries[k].paths && Touches(p, written)) :: entries[k]
  }

  lemma HitIsScan(entries: map<Key, Entry>, written: seq<string>)
    ensures Hit(IndexOf(entries), written) == set k | k in entries && exists p :: p in entries[k].paths && Touches(p, written)
  {
    var index := IndexOf(entries);
    forall k | k in entries && exists p :: p in entries[k].paths && Touches(p, written) ensures k in Hit(index, written) {
      var p :| p in entries[k].paths && Touches(p, written);
      assert p in index && k in index[p];
    }
  }

  lemma IndexWithout(entries: map<Key, Entry>, ks: set<Key>)
    ensures Without(Store(entries, IndexOf(entries)), ks).index == IndexOf(entries - ks)
  {
    var s, rest := Store(entries, IndexOf(entries)), entries - ks;
    var kept := Without(s, ks).index;
    forall p | p in s.index ensures Bucket(s, ks, p) == Holders(rest, p) {}
    forall p | p in IndexOf(rest) ensures p in kept {
      var k :| k in rest && p in rest[k].paths;
      assert p in IndexedPaths(entries) && k in Holders(rest, p);
    }
    forall p | p in kept ensures p in IndexOf(rest) {
      var k :| k in Bucket(s, ks, p);
      assert k in Holders(rest, p);
    }
  }

  /** Invalidation by the index keeps it exact, and removes, and counts, exactly the entries that a scan of
      all of them would: those with a path that overlaps a written one. */
  lemma WriteScans(h: Host, s: Store, m: string, a: string, params: Params)
    requires Exact(h, s) && IsWrite(m, a)
    ensures var t := AfterWrite(h, true, s, m, a, params);
      && Exact(h, t)
      && t.entries == Scanned(s.entries, WritePaths(h, params))
      && |Hit(s.index, WritePaths(h, params))| == |s.entries| - |t.entries|
  {
    var written := WritePaths(h, params);
    HitIsScan(s.entries, written);
    IndexWithout(s.entries, Hit(s.index, written));
    ScanRemoves(s.entries, written, Hit(s.index, written));
  }

  lemma ScanRemoves(entries: map<Key, Entry>, written: seq<string>, hit: set<Key>)
    requires hit == set k | k in entries && exists p :: p in entries[k].paths && Touches(p, written)
    ensures entries - hit == Scanned(entries, written) && |hit| == |entries| - |Scanned(entries, written)|
  {
    var rest := entries - hit;
    assert rest.Keys == entries.Keys - hit && hit <= entries.Keys;
    assert |rest| == |rest.Keys| && |entries| == |entries.Keys|;
    assert rest.Keys == Scanned(entries, written).Keys;
  }

  lemma OnePath(h: Host, p: string)
    ensures ExtractPaths(h, map["path" := Text(p)]) == if p == "" then [] else [h.resolve(p)]
  {
  }

  lemma OnePathKey(h: Host, m: string, a: string, p: string, q: string)
    requires h.resolve(p) == h.resolve(q)
    ensures MakeKey(h, m, a, map["path" := Text(p)]) == MakeKey(h, m, a, map["path" := Text(q)])
  {
    assert MakeKey(h, m, a, map["path" := Text(p)]).params == MakeKey(h, m, a, map["path" := Text(q)]).params;
  }

  /** How an empty path breaks the index: "" is resolved for the key but not for the index, so reading "" after
      the directory it stands for leaves a pair behind that no entry has. */
  lemma EmptyPathBreaksIndex(h: Host, m: string, a: string, work: string, result: string)
    requires IsRead(m, a) && work != "" && h.resolve("") == h.resolve(work)
    ensures var s := AfterPut(h, true, Store(map[], map[]), m, a, map["path" := Text(work)], result);
      var t := AfterPut(h, true, s, m, a, map["path" := Text("")], result);
      s.index == IndexOf(s.entries) && t.index != IndexOf(t.entries)
  {
    InitiallyExact(h);
    PutKeepsExact(h, true, Store(map[], map[]), m, a, map["path" := Text(work)], result);
    OnePath(h, work);
    OnePath(h, "");
    OnePathKey(h, m, a, work, "");
    var s, key := AfterPut(h, true, Store(map[], map[]), m, a, map["path" := Text(work)], result), MakeKey(h, m, a, map["path" := Text("")]);
    StalePair(s.entries, key, Entry(result, []), h.resolve(work));
  }

  // ---- Tool calls ----

  /** The files: content by location. */
  type World = map<string, string>

  datatype Reply = Output(json: string, isError: bool) | Raises(error: string)

  datatype OnToolError = ShowToAgent | Skip | Fail

  datatype ToolResult = ToolResult(output: string, isError: bool) | Crashed(error: string)

  datatype Call = Call(moduleId: string, action: string, params: Params)

  /** The tool executor, and the texts of an error and of a skipped call. */
  datatype Tools = Tools(
    host: Host,
    exec: (World, Call) -> (World, Reply),
    errorText: string -> string,
    skipText: string -> string,
    onError: OnToolError)

  function OnRaise(t: Tools, error: string): ToolResult {
    match t.onError
    case ShowToAgent => ToolResult(t.errorText(error), true)
    case Skip => ToolResult(t.skipText(error), false)
    case Fail => Crashed(error)
  }

  function ResultOf(t: Tools, r: Reply): ToolResult {
    match r
    case Output(json, isError) => ToolResult(json, isError)
    case Raises(error) => OnRaise(t, error)
  }

  /** A call without any cache. */
  function Direct(t: Tools, w: World, c: Call): (World, ToolResult) {
    var (w', r) := t.exec(w, c);
    (w', ResultOf(t, r))
  }

  datatype Session = Session(store: Store, world: World)

  /** `_execute_tool_call` for a module action: invalidate, look up, execute, store. */
  function CachedCall(t: Tools, enabled: bool, s: Session, c: Call): (Session, ToolResult) {
    var store := AfterWrite(t.host, enabled, s.store, c.moduleId, c.action, c.params);
    match Cached(t.host, enabled, store, c.moduleId, c.action, c.params)
    case Err(error) => (Session(store, s.world), OnRaise(t, error))
    case Ok(Some(result)) => (Session(store, s.world), ToolResult(result, false))
    case Ok(None) =>
      var (w', r) := t.exec(s.world, c);
      var store' :=
        if r.Output? && !r.isError then AfterPut(t.host, enabled, store, c.moduleId, c.action, c.params, r.json) else store;
      (Session(store', w'), ResultOf(t, r))
  }

  /** A call leaves no empty bucket behind. */
  lemma CallKeepsBuckets(t: Tools, enabled: bool, s: Session, c: Call)
    requires NoEmptyBuckets(s.store)
    ensures NoEmptyBuckets(CachedCall(t, enabled, s, c).0.store)
  {
    if enabled && IsWrite(c.moduleId, c.action) {
      WithoutNoEmpty(s.store, Hit(s.store.index, WritePaths(t.host, c.params)));
    }
    PutNoEmpty(t.host, enabled, AfterWrite(t.host, enabled, s.store, c.moduleId, c.action, c.params), c.moduleId, c.action, c.params);
  }

  lemma PutNoEmpty(h: Host, enabled: bool, s: Store, m: string, a: string, params: Params)
    requires NoEmptyBuckets(s)
    ensures forall result :: NoEmptyBuckets(AfterPut(h, enabled, s, m, a, params, result))
  {
    forall result ensures NoEmptyBuckets(AfterPut(h, enabled, s, m, a, params, result)) {
      var t := AfterPut(h, enabled, s, m, a, params, result);
      forall p | p in t.index ensures t.index[p] != {} {
        assert p in s.index ==> s.index[p] != {};
      }
    }
  }

  class ToolRuntime {
    const tools: Tools
    const cache: ActionSessionCache
    var world: World

    constructor (tools: Tools, cache: ActionSessionCache, world: World)
      ensures this.tools == tools && this.cache == cache && this.world == world
    {
      this.tools, this.cache, this.world := tools, cache, world;
    }

    function State(): Session
      reads this, cache
    {
      Session(cache.Contents(), world)
    }

    method ExecuteToolCall(c: Call) returns (r: ToolResult)
      requires cache.host == tools.host && NoEmptyBuckets(cache.Contents())
      modifies `world, cache
      ensures (State(), r) == CachedCall(tools, cache.enabled, old(State()), c)
      ensures NoEmptyBuckets(cache.Contents())
    {
      CallKeepsBuckets(tools, cache.enabled, State(), c);
      var _ := cache.InvalidateForWrite(c.moduleId, c.action, c.params);
      var cached := cache.Get(c.moduleId, c.action, c.params);
      if cached.Err? { return OnRaise(tools, cached.error); }
      if cached.value.Some? { return ToolResult(cached.value.value, false); }
      var (w, reply) := tools.exec(world, c);
      world := w;
      if reply.Output? && !reply.isError {
        cache.Put(c.moduleId, c.action, c.params, reply.json);
      }
      r := ResultOf(tools, reply);
    }
  }

  // ---- What the tools are assumed to do ----

  ghost predicate SameAt(w: World, w': World, l: string) {
    (l in w <==> l in w') && (l in w ==> w[l] == w'[l])
  }

  ghost predicate SameBelow(w: World, w': World, paths: seq<string>) {
    forall l, i | 0 <= i < |paths| && Below(l, paths[i]) :: SameAt(w, w', l)
  }

  ghost predicate IsReadCall(c: Call) { IsRead(c.moduleId, c.action) }

  ghost function CallKey(t: Tools, c: Call): Key { MakeKey(t.host, c.moduleId, c.action, c.params) }

  /** The read's answer depends on what lies at or below its paths only. */
  ghost predicate ReadsBelow(t: Tools, c: Call) {
    forall w: World, w': World :: SameBelow(w, w', ExtractPaths(t.host, c.params)) ==> t.exec(w, c).1 == t.exec(w', c).1
  }

  /** The call changes files only if it is a listed write, and only at ancestors or descendants of its paths. */
  ghost predicate WritesListed(t: Tools, c: Call) {
    forall w: World ::
      var w' := t.exec(w, c).0;
      if IsWrite(c.moduleId, c.action)
      then forall l :: !Touches(l, WritePaths(t.host, c.params)) ==> SameAt(w, w', l)
      else w' == w
  }

  /** The calls that the cache can handle: no empty path, no list or dict given to a cached read, reads that
      look at their paths only, and no write but the listed ones. */
  ghost predicate Sane(t: Tools, c: Call) {
    && NoEmptyPaths(c.params)
    && WritesListed(t, c)
    && (IsReadCall(c) ==> Hashable(c.params) && ReadsBelow(t, c))
  }

  /** The cache takes the two calls for one: reads with one key, which may spell a path differently. */
  ghost predicate SameRead(t: Tools, c: Call, d: Call) {
    IsReadCall(c) && IsReadCall(d) && CallKey(t, c) == CallKey(t, d)
  }

  /** If the cache takes two of the calls for one, they have one answer. */
  ghost predicate OneAnswer(t: Tools, calls: seq<Call>) {
    forall i, j, w | 0 <= i < j < |calls| && SameRead(t, calls[i], calls[j]) :: t.exec(w, calls[i]).1 == t.exec(w, calls[j]).1
  }

  // ---- The index over whole runs ----

  lemma CallExact(t: Tools, enabled: bool, s: Session, c: Call)
    requires Exact(t.host, s.store) && NoEmptyPaths(c.params)
    ensures Exact(t.host, CachedCall(t, enabled, s, c).0.store)
  {
    var store := AfterWrite(t.host, enabled, s.store, c.moduleId, c.action, c.params);
    WriteExact(t.host, enabled, s.store, c);
    PutExact(t.host, enabled, store, c);
  }

  lemma WriteExact(h: Host, enabled: bool, s: Store, c: Call)
    requires Exact(h, s)
    ensures Exact(h, AfterWrite(h, enabled, s, c.moduleId, c.action, c.params))
  {
    if enabled && IsWrite(c.moduleId, c.action) {
      WriteScans(h, s, c.moduleId, c.action, c.params);
    }
  }

  lemma PutExact(h: Host, enabled: bool, s: Store, c: Call)
    requires Exact(h, s) && NoEmptyPaths(c.params)
    ensures forall result :: Exact(h, AfterPut(h, enabled, s, c.moduleId, c.action, c.params, result))
  {
    forall result ensures Exact(h, AfterPut(h, enabled, s, c.moduleId, c.action, c.params, result)) {
      PutKeepsExact(h, enabled, s, c.moduleId, c.action, c.params, result);
    }
  }

  /** In every state of every session, whatever the tools do, the index holds exactly the pairs of the entries
      and no empty bucket, as long as no path is empty. */
  lemma {:induction false} RunExact(t: Tools, enabled: bool, s: Session, calls: seq<Call>)
    requires Exact(t.host, s.store) && forall i | 0 <= i < |calls| :: NoEmptyPaths(calls[i].params)
    ensures Exact(t.host, CachedRun(t, enabled, s, calls).0.store) && NoEmptyBuckets(CachedRun(t, enabled, s, calls).0.store)
    decreases |calls|
  {
    ExactNoEmpty(t.host, s.store);
    if calls != [] {
      CallExact(t, enabled, s, calls[0]);
      RunExact(t, enabled, CachedCall(t, enabled, s, calls[0]).0, calls[1..]);
    }
  }

  // ---- Transparency ----

  /** A read whose stored result is what it would answer now. */
  ghost predicate Vouches(t: Tools, s: Session, k: Key, r: Call)
    requires k in s.store.entries
  {
    && IsReadCall(r) && NoEmptyPaths(r.params) && CallKey(t, r) == k && ReadsBelow(t, r)
    && t.exec(s.world, r).1 == Output(s.store.entries[k].result, false)
  }

  /** One of the calls made so far vouches for each entry. */
  ghost predicate Fresh(t: Tools, s: Session, made: seq<Call>) {
    forall k | k in s.store.entries :: exists i :: 0 <= i < |made| && Vouches(t, s, k, made[i])
  }

  ghost predicate Good(t: Tools, enabled: bool, s: Session, made: seq<Call>) {
    Exact(t.host, s.store) && (enabled ==> Fresh(t, s, made))
  }

  lemma NoReadIsWrite(m: string, a: string)
    ensures !(IsRead(m, a) && IsWrite(m, a))
  {
  }

  lemma SameWorldBelow(w: World, paths: seq<string>)
    ensures SameBelow(w, w, paths)
  {
  }

  /** A survivor's paths overlap none of the written ones. */
  lemma SurvivorUntouched(h: Host, s: Store, c: Call, k: Key, p: string)
    requires Exact(h, s) && IsWrite(c.moduleId, c.action)
    requires k in AfterWrite(h, true, s, c.moduleId, c.action, c.params).entries && p in KeyPaths(h, k)
    ensures !Touches(p, WritePaths(h, c.params))
  {
    WriteScans(h, s, c.moduleId, c.action, c.params);
    assert p in s.entries[k].paths;
  }

  /** What an untouched path sees is what lies below it, and a write leaves that alone. */
  lemma UntouchedSame(t: Tools, w: World, c: Call, paths: seq<string>)
    requires WritesListed(t, c) && IsWrite(c.moduleId, c.action)
    requires forall i | 0 <= i < |paths| :: !Touches(paths[i], WritePaths(t.host, c.params))
    ensures SameBelow(w, t.exec(w, c).0, paths)
  {
    var written := WritePaths(t.host, c.params);
    forall l, i | 0 <= i < |paths| && Below(l, paths[i]) ensures SameAt(w, t.exec(w, c).0, l) {
      forall j | 0 <= j < |written| ensures !Overlap(l, written[j]) {
        assert !Overlap(paths[i], written[j]);
        if Overlap(l, written[j]) {
          TouchedOverlaps(l, paths[i], written[j]);
        }
      }
    }
  }

  /** An entry that survives the invalidation is not affected by the write. */
  lemma SurvivorFresh(t: Tools, s: Session, c: Call, k: Key, r: Call)
    requires Exact(t.host, s.store) && WritesListed(t, c) && IsWrite(c.moduleId, c.action)
    requires k in s.store.entries && Vouches(t, s, k, r)
    requires k in AfterWrite(t.host, true, s.store, c.moduleId, c.action, c.params).entries
    ensures t.exec(t.exec(s.world, c).0, r).1 == t.exec(s.world, r).1
  {
    var paths := ExtractPaths(t.host, r.params);
    PathsFromKey(t.host, r.moduleId, r.action, r.params);
    forall i | 0 <= i < |paths| ensures !Touches(paths[i], WritePaths(t.host, c.params)) {
      SurvivorUntouched(t.host, s.store, c, k, paths[i]);
    }
    UntouchedSame(t, s.world, c, paths);
  }

  lemma WriteFresh(t: Tools, s: Session, made: seq<Call>, c: Call)
    requires Good(t, true, s, made) && WritesListed(t, c) && IsWrite(c.moduleId, c.action)
    ensures Fresh(t, Session(AfterWrite(t.host, true, s.store, c.moduleId, c.action, c.params), t.exec(s.world, c).0), made)
  {
    var s' := Session(AfterWrite(t.host, true, s.store, c.moduleId, c.action, c.params), t.exec(s.world, c).0);
    forall k | k in s'.store.entries ensures exists i :: 0 <= i < |made| && Vouches(t, s', k, made[i]) {
      var i :| 0 <= i < |made| && Vouches(t, s, k, made[i]);
      SurvivorFresh(t, s, c, k, made[i]);
      assert Vouches(t, s', k, made[i]);
    }
  }

  lemma MoreMade(t: Tools, s: Session, made: seq<Call>, c: Call)
    requires Fresh(t, s, made)
    ensures Fresh(t, s, made + [c])
  {
    forall k | k in s.store.entries ensures exists i :: 0 <= i < |made + [c]| && Vouches(t, s, k, (made + [c])[i]) {
      var i :| 0 <= i < |made| && Vouches(t, s, k, made[i]);
      assert (made + [c])[i] == made[i];
    }
  }

  lemma PutFresh(t: Tools, s: Session, made: seq<Call>, c: Call, result: string)
    requires Fresh(t, s, made) && IsReadCall(c) && Sane(t, c) && t.exec(s.world, c).1 == Output(result, false)
    ensures Fresh(t, Session(AfterPut(t.host, true, s.store, c.moduleId, c.action, c.params, result), s.world), made + [c])
  {
    var s' := Session(AfterPut(t.host, true, s.store, c.moduleId, c.action, c.params, result), s.world);
    forall k | k in s'.store.entries ensures exists i :: 0 <= i < |made + [c]| && Vouches(t, s', k, (made + [c])[i]) {
      if k == CallKey(t, c) {
        assert Vouches(t, s', k, (made + [c])[|made|]);
      } else {
        var i :| 0 <= i < |made| && Vouches(t, s, k, made[i]);
        assert Vouches(t, s', k, (made + [c])[i]);
      }
    }
  }

  /** The answer of direct execution to the call or to an earlier read that the cache takes for the same. */
  ghost predicate Answered(t: Tools, w: World, made: seq<Call>, c: Call, r: ToolResult) {
    exists i :: 0 <= i < |made| && AnsweredAs(t, w, c, made[i], r)
  }

  ghost predicate AnsweredAs(t: Tools, w: World, c: Call, d: Call, r: ToolResult) {
    (c == d || SameRead(t, d, c)) && r == ResultOf(t, t.exec(w, d).1)
  }

  lemma HitAnswers(t: Tools, s: Session, made: seq<Call>, c: Call)
    requires Fresh(t, s, made) && IsReadCall(c) && CallKey(t, c) in s.store.entries
    ensures Answered(t, s.world, made + [c], c, ToolResult(s.store.entries[CallKey(t, c)].result, false))
  {
    var k := CallKey(t, c);
    var i :| 0 <= i < |made| && Vouches(t, s, k, made[i]);
    assert AnsweredAs(t, s.world, c, (made + [c])[i], ToolResult(s.store.entries[k].result, false));
  }

  /** One call: the files of direct execution, and its answer to the call as it was first spelled. */
  lemma CallTransparent(t: Tools, enabled: bool, s: Session, made: seq<Call>, c: Call)
    requires Good(t, enabled, s, made) && Sane(t, c)
    ensures var (s', r) := CachedCall(t, enabled, s, c);
      && Good(t, enabled, s', made + [c])
      && s'.world == Direct(t, s.world, c).0
      && Answered(t, s.world, made + [c], c, r)
  {
    var reply := t.exec(s.world, c).1;
    NoReadIsWrite(c.moduleId, c.action);
    CallExact(t, enabled, s, c);
    assert AnsweredAs(t, s.world, c, (made + [c])[|made|], ResultOf(t, reply));
    if enabled && IsWrite(c.moduleId, c.action) {
      WriteFresh(t, s, made, c);
      MoreMade(t, CachedCall(t, enabled, s, c).0, made, c);
    } else if enabled && IsReadCall(c) && CallKey(t, c) !in s.store.entries && reply.Output? && !reply.isError {
      PutFresh(t, s, made, c, reply.json);
    } else if enabled {
      MoreMade(t, s, made, c);
      if IsReadCall(c) && CallKey(t, c) in s.store.entries {
        HitAnswers(t, s, made, c);
      }
    }
  }

  function CachedRun(t: Tools, enabled: bool, s: Session, calls: seq<Call>): (r: (Session, seq<ToolResult>))
    ensures |r.1| == |calls|
    decreases |calls|
  {
    if calls == [] then (s, [])
    else
      var (s1, r) := CachedCall(t, enabled, s, calls[0]);
      var (s2, rs) := CachedRun(t, enabled, s1, calls[1..]);
      (s2, [r] + rs)
  }

  function DirectRun(t: Tools, w: World, calls: seq<Call>): (r: (World, seq<ToolResult>))
    ensures |r.1| == |calls|
    decreases |calls|
  {
    if calls == [] then (w, [])
    else
      var (w1, r) := Direct(t, w, calls[0]);
      var (w2, rs) := DirectRun(t, w1, calls[1..]);
      (w2, [r] + rs)
  }

  /** The files before call `k`. */
  function WorldAt(t: Tools, w: World, calls: seq<Call>, k: nat): World
    requires k <= |calls|
    decreases k
  {
    if k == 0 then w else WorldAt(t, Direct(t, w, calls[0]).0, calls[1..], k - 1)
  }

  /** What the cache gives in any run of sane calls, whatever the tools do on other calls: the files of direct
      execution, and to each call its answer, now, to that call or to an earlier read with the same key. */
  lemma {:induction false} RunAnswered(t: Tools, enabled: bool, s: Session, made: seq<Call>, calls: seq<Call>)
    requires Good(t, enabled, s, made)
    requires forall i | 0 <= i < |calls| :: Sane(t, calls[i])
    ensures var (s', rs) := CachedRun(t, enabled, s, calls);
      && Good(t, enabled, s', made + calls)
      && s'.world == DirectRun(t, s.world, calls).0
      && forall k | 0 <= k < |calls| :: Answered(t, WorldAt(t, s.world, calls, k), made + calls[..k + 1], calls[k], rs[k])
    decreases |calls|
  {
    if calls == [] {
      assert made + calls == made;
    } else {
      var c, rest := calls[0], calls[1..];
      var (s1, r) := CachedCall(t, enabled, s, c);
      CallTransparent(t, enabled, s, made, c);
      RunAnswered(t, enabled, s1, made + [c], rest);
      assert (made + [c]) + rest == made + calls;
      var later := CachedRun(t, enabled, s1, rest).1;
      forall k | 0 <= k < |calls|
        ensures Answered(t, WorldAt(t, s.world, calls, k), made + calls[..k + 1], calls[k], ([r] + later)[k])
      {
        MadeBefore(made, calls, k);
        if k > 0 {
          assert Answered(t, WorldAt(t, s1.world, rest, k - 1), (made + [c]) + rest[..k], rest[k - 1], later[k - 1]);
        }
      }
    }
  }

  lemma MadeBefore(made: seq<Call>, calls: seq<Call>, k: nat)
    requires k < |calls|
    ensures made + calls[..k + 1] == (made + [calls[0]]) + calls[1..][..k]
    ensures k == 0 ==> made + calls[..k + 1] == made + [calls[0]]
  {
  }

  lemma {:induction false} DirectAt(t: Tools, w: World, calls: seq<Call>, k: nat)
    requires k < |calls|
    ensures DirectRun(t, w, calls).1[k] == ResultOf(t, t.exec(WorldAt(t, w, calls, k), calls[k]).1)
    decreases k
  {
    if k > 0 {
      DirectAt(t, Direct(t, w, calls[0]).0, calls[1..], k - 1);
    }
  }

  /** Transparency of the cache: if reads that it takes for one have one answer, any sequence of sane calls
      gives, call by call, the answers and the files of direct execution. */
  lemma RunTransparent(t: Tools, enabled: bool, s: Session, made: seq<Call>, calls: seq<Call>)
    requires Good(t, enabled, s, made) && OneAnswer(t, made + calls)
    requires forall i | 0 <= i < |calls| :: Sane(t, calls[i])
    ensures var (s', rs) := CachedRun(t, enabled, s, calls);
      Good(t, enabled, s', made + calls) && (s'.world, rs) == DirectRun(t, s.world, calls)
  {
    RunAnswered(t, enabled, s, made, calls);
    var rs := CachedRun(t, enabled, s, calls).1;
    forall k | 0 <= k < |calls| ensures rs[k] == DirectRun(t, s.world, calls).1[k] {
      DirectAt(t, s.world, calls, k);
      AnsweredRight(t, WorldAt(t, s.world, calls, k), made, calls, k, rs[k]);
    }
    SameReplies(rs, DirectRun(t, s.world, calls).1);
  }

  lemma SameReplies(a: seq<ToolResult>, b: seq<ToolResult>)
    requires |a| == |b| && forall k | 0 <= k < |a| :: a[k] == b[k]
    ensures a == b
  {
  }

  lemma AnsweredRight(t: Tools, w: World, made: seq<Call>, calls: seq<Call>, k: nat, r: ToolResult)
    requires OneAnswer(t, made + calls) && k < |calls| && Answered(t, w, made + calls[..k + 1], calls[k], r)
    ensures r == ResultOf(t, t.exec(w, calls[k]).1)
  {
    var before := made + calls[..k + 1];
    var i :| 0 <= i < |before| && AnsweredAs(t, w, calls[k], before[i], r);
    OneAnswerAt(t, made, calls, i, k, w);
  }

  lemma OneAnswerAt(t: Tools, made: seq<Call>, calls: seq<Call>, i: nat, k: nat, w: World)
    requires OneAnswer(t, made + calls) && k < |calls| && i < |made + calls[..k + 1]|
    requires var d := (made + calls[..k + 1])[i]; calls[k] == d || SameRead(t, d, calls[k])
    ensures t.exec(w, (made + calls[..k + 1])[i]).1 == t.exec(w, calls[k]).1
  {
    var all := made + calls;
    assert all[i] == (made + calls[..k + 1])[i] && all[|made| + k] == calls[k];
  }

  /** A new session is good. */
  lemma NewSessionTransparent(t: Tools, enabled: bool, w: World, calls: seq<Call>)
    requires OneAnswer(t, calls) && forall i | 0 <= i < |calls| :: Sane(t, calls[i])
    ensures CachedRun(t, enabled, Session(Store(map[], map[]), w), calls).1 == DirectRun(t, w, calls).1
  {
    assert [] + calls == calls;
    RunTransparent(t, enabled, Session(Store(map[], map[]), w), [], calls);
  }

  /** Why one answer is asked for: after a successful read, another one with its key gets the answer of direct
      execution if and only if the two have the same answer. */
  lemma SecondReadExact(t: Tools, w: World, c: Call, d: Call)
    requires Sane(t, c) && Sane(t, d) && SameRead(t, c, d)
    requires var r := t.exec(w, c).1; r.Output? && !r.isError
    ensures CachedRun(t, true, Session(Store(map[], map[]), w), [c, d]).1[1] == DirectRun(t, w, [c, d]).1[1]
      <==> ResultOf(t, t.exec(w, d).1) == ResultOf(t, t.exec(w, c).1)
  {
    var s := Session(Store(map[], map[]), w);
    NoReadIsWrite(c.moduleId, c.action);
    assert [c, d][1..] == [d];
    var s1 := CachedCall(t, true, s, c).0;
    assert s1.world == w && CachedCall(t, true, s1, d).1 == ResultOf(t, t.exec(w, c).1);
    assert CachedRun(t, true, s1, [d]).1 == [CachedCall(t, true, s1, d).1] + CachedRun(t, true, CachedCall(t, true, s1, d).0, [d][1..]).1;
    assert DirectRun(t, w, [d]).1[0] == ResultOf(t, t.exec(w, d).1);
  }

  /** Why lists and dicts are excluded: a cached read given one is never executed, it fails instead. */
  lemma UnhashableReadFails(t: Tools, s: Session, c: Call)
    requires IsReadCall(c) && !Hashable(c.params)
    ensures CachedCall(t, true, s, c) == (s, OnRaise(t, "unhashable type"))
  {
    NoReadIsWrite(c.moduleId, c.action);
  }

  // ---- Tools of the assumed kind exist ----

  /** A read shows the content at its first path, resolved, and may repeat its parameters; a write stores its
      text there. */
  ghost function FileTools(resolve: string -> string, show: (Params, string) -> string, content: Call -> string): Tools {
    var h := Host(resolve, _ => "");
    Tools(h,
          (w: World, c: Call) =>
            var paths := ExtractPaths(h, c.params);
            if IsWrite(c.moduleId, c.action) && paths != [] then (w[paths[0] := content(c)], Output("", false))
            else if IsRead(c.moduleId, c.action) && paths != [] then
              (w, if paths[0] in w then Output(show(c.params, w[paths[0]]), false) else Output("", true))
            else (w, Output("", false)),
          s => s, s => s, ShowToAgent)
  }

  lemma FileToolsQualify(resolve: string -> string, show: (Params, string) -> string, content: Call -> string, c: Call)
    ensures var t := FileTools(resolve, show, content); WritesListed(t, c) && (IsReadCall(c) ==> ReadsBelow(t, c))
  {
    var t := FileTools(resolve, show, content);
    var paths := ExtractPaths(t.host, c.params);
    NoReadIsWrite(c.moduleId, c.action);
    if IsReadCall(c) {
      forall w: World, w': World | SameBelow(w, w', paths) ensures t.exec(w, c).1 == t.exec(w', c).1 {
        if paths != [] {
          assert Below(paths[0], paths[0]) && SameAt(w, w', paths[0]);
        }
      }
    }
    forall w: World, l | IsWrite(c.moduleId, c.action) && !Touches(l, WritePaths(t.host, c.params))
      ensures SameAt(w, t.exec(w, c).0, l)
    {
      if paths != [] && l == paths[0] {
        assert Overlap(l, WritePaths(t.host, c.params)[0]);
      }
    }
  }

  // ---- Two spellings of one path ----

  function ReadFile(path: string): Call {
    Call("filesystem", "read_file", map["path" := Text(path)])
  }

  function Spelled(params: Params, text: string): string {
    (if "path" in params && params["path"].Text? then params["path"].s else "") + ": " + text
  }

  /** As the filesystem module does, these tools answer with the path as it was spelled. */
  ghost function SpellingTools(resolve: string -> string): Tools {
    FileTools(resolve, Spelled, _ => "")
  }

  lemma ReadFileSane(resolve: string -> string, path: string)
    requires path != ""
    ensures Sane(SpellingTools(resolve), ReadFile(path)) && IsReadCall(ReadFile(path))
  {
    FileToolsQualify(resolve, Spelled, _ => "", ReadFile(path));
    assert IsRead("filesystem", "read_file");
  }

  lemma ReadFileAnswers(resolve: string -> string, path: string, w: World)
    requires path != "" && resolve(path) in w
    ensures SpellingTools(resolve).exec(w, ReadFile(path)).1 == Output(path + ": " + w[resolve(path)], false)
  {
    NoReadIsWrite("filesystem", "read_file");
    assert IsRead("filesystem", "read_file");
    OnePath(Host(resolve, _ => ""), path);
    OnePath(SpellingTools(resolve).host, path);
    var params := ReadFile(path).params;
    assert Spelled(params, w[resolve(path)]) == path + ": " + w[resolve(path)];
    assert ExtractPaths(SpellingTools(resolve).host, params) == [resolve(path)];
  }

  lemma SpellingsDiffer(p: string, q: string, text: string)
    ensures p + text == q + text ==> p == q
  {
    if p + text == q + text {
      assert |p| == |q| && (p + text)[..|p|] == p && (q + text)[..|q|] == q;
    }
  }

  /** A file that is read under a second spelling of its path: the cache repeats the answer to the first one. */
  lemma SecondSpellingIsLost(resolve: string -> string, p: string, q: string, w: World)
    requires p != q && p != "" && q != "" && resolve(p) == resolve(q) && resolve(p) in w
    ensures var t, calls := SpellingTools(resolve), [ReadFile(p), ReadFile(q)];
      && Sane(t, calls[0]) && Sane(t, calls[1])
      && CachedRun(t, true, Session(Store(map[], map[]), w), calls).1[1] != DirectRun(t, w, calls).1[1]
  {
    var t := SpellingTools(resolve);
    ReadFileSane(resolve, p);
    ReadFileSane(resolve, q);
    ReadFileAnswers(resolve, p, w);
    ReadFileAnswers(resolve, q, w);
    OnePathKey(t.host, "filesystem", "read_file", p, q);
    SecondReadExact(t, w, ReadFile(p), ReadFile(q));
    SpellingsDiffer(p, q, ": " + w[resolve(p)]);
    assert forall s :: s + ": " + w[resolve(p)] == s + (": " + w[resolve(p)]);
  }

  // ---- Why the writes must be listed ----

  /** Reading answers the content of /f; a shell command, which is not a listed write, deletes it. */
  ghost function ShellTools(): Tools {
    Tools(Host(s => s, _ => ""),
          (w: World, c: Call) =>
            if c.moduleId == "os_exec" then (map[], Output("", false))
            else (w, Output(if "/f" in w then w["/f"] else "", false)),
          s => s, s => s, ShowToAgent)
  }

  const READ_F: Call := ReadFile("/f")
  const SHELL: Call := Call("os_exec", "run_command", map[])

  lemma ShellSession(w: World)
    requires w == map["/f" := "old"]
    ensures var t := ShellTools();
      var s1 := CachedCall(t, true, Session(Store(map[], map[]), w), READ_F).0;
      && s1.world == w && CallKey(t, READ_F) in s1.store.entries && s1.store.entries[CallKey(t, READ_F)].result == "old"
      && CachedCall(t, true, s1, SHELL).0 == Session(s1.store, map[])
      && CachedCall(t, true, Session(s1.store, map[]), READ_F).1 == ToolResult("old", false)
  {
    assert !IsWrite("filesystem", "read_file") && !IsWrite("os_exec", "run_command") && !IsRead("os_exec", "run_command");
  }

  /** With these tools the read is sane, and any run of it transparent; the command is what is not. */
  lemma ShellIsNotSane()
    ensures Sane(ShellTools(), READ_F) && !WritesListed(ShellTools(), SHELL)
  {
    var t, w := ShellTools(), map["/f" := "old"];
    ReadFSane();
    assert !IsWrite("os_exec", "run_command");
    assert "/f" in w && "/f" !in t.exec(w, SHELL).0;
  }

  lemma ReadFSane()
    ensures Sane(ShellTools(), READ_F)
  {
    var t := ShellTools();
    assert !IsWrite("filesystem", "read_file");
    assert ExtractPaths(t.host, READ_F.params) == ["/f"];
    assert Below("/f", "/f");
    forall w: World, w': World | SameBelow(w, w', ["/f"]) ensures t.exec(w, READ_F).1 == t.exec(w', READ_F).1 {
      assert SameAt(w, w', ["/f"][0]);
    }
  }

  /** Read, run the command, read again: with the cache the second read still answers the deleted content. */
  lemma UnlistedWriteGoesUnnoticed()
    ensures var w, calls := map["/f" := "old"], [READ_F, SHELL, READ_F];
      && CachedRun(ShellTools(), true, Session(Store(map[], map[]), w), calls).1[2] == ToolResult("old", false)
      && DirectRun(ShellTools(), w, calls).1[2] == ToolResult("", false)
  {
    var t, w, calls := ShellTools(), map["/f" := "old"], [READ_F, SHELL, READ_F];
    ShellSession(w);
    assert calls[1..] == [SHELL, READ_F] && [SHELL, READ_F][1..] == [READ_F];
    var s1 := CachedCall(t, true, Session(Store(map[], map[]), w), READ_F).0;
    assert CachedRun(t, true, Session(s1.store, map[]), [READ_F]).1[0] == ToolResult("old", false);
    assert CachedRun(t, true, s1, [SHELL, READ_F]).1[1] == ToolResult("old", false);
    assert DirectRun(t, map[], [READ_F]).1[0] == ToolResult("", false);
    assert DirectRun(t, w, [SHELL, READ_F]).1[1] == ToolResult("", false);
  }
}
