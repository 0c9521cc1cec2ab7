/** The hub's tables, and the columns that repeat what other tables say. */
module HubTables {
  import opened Values

  datatype ModuleRow = ModuleRow(latest: string, average: real, count: nat, downloads: nat, deprecated: bool)

  datatype VersionRow = VersionRow(publishedAt: real, yanked: bool)

  /** Ratings by module and publisher, versions by module and version: the tables' unique keys. */
  datatype Hub = Hub(
    modules: map<string, ModuleRow>,
    ratings: map<(string, string), int>,
    versions: map<(string, string), VersionRow>)

  // ---- Aggregates over the rating rows ----

  ghost function RatingsOf(h: Hub, m: string): set<(string, string)> {
    set k | k in h.ratings && k.0 == m
  }

  ghost function Stars(rows: set<(string, string)>, ratings: map<(string, string), int>): int
    requires rows <= ratings.Keys
  {
    if rows == {} then 0
    else
      var k :| k in rows;
      ratings[k] + Stars(rows - {k}, ratings)
  }

  lemma {:induction false} StarsPick(rows: set<(string, string)>, ratings: map<(string, string), int>, k: (string, string))
    requires rows <= ratings.Keys && k in rows
    ensures Stars(rows, ratings) == ratings[k] + Stars(rows - {k}, ratings)
    decreases |rows|
  {
    var p :| p in rows && Stars(rows, ratings) == ratings[p] + Stars(rows - {p}, ratings);
    if p != k {
      StarsPick(rows - {p}, ratings, k);
      StarsPick(rows - {k}, ratings, p);
      assert rows - {p} - {k} == rows - {k} - {p};
    }
  }

  lemma StarsAdd(rows: set<(string, string)>, ratings: map<(string, string), int>, k: (string, string))
    requires rows <= ratings.Keys && k in ratings && k !in rows
    ensures Stars(rows + {k}, ratings) == Stars(rows, ratings) + ratings[k]
  {
    StarsPick(rows + {k}, ratings, k);
    assert rows + {k} - {k} == rows;
  }

  lemma {:induction false} StarsSame(rows: set<(string, string)>, r1: map<(string, string), int>, r2: map<(string, string), int>)
    requires rows <= r1.Keys && rows <= r2.Keys && forall k | k in rows :: r1[k] == r2[k]
    ensures Stars(rows, r1) == Stars(rows, r2)
    decreases |rows|
  {
    if rows != {} {
      var k :| k in rows;
      StarsPick(rows, r1, k);
      StarsPick(rows, r2, k);
      StarsSame(rows - {k}, r1, r2);
    }
  }

  /** `COALESCE(AVG(stars), 0)` */
  ghost function Mean(h: Hub, m: string): real {
    var rows := RatingsOf(h, m);
    if rows == {} then 0.0 else Stars(rows, h.ratings) as real / |rows| as real
  }

  /** The sum and the number of a module's rating rows, read row by row. */
  method Aggregate(ratings: map<(string, string), int>, m: string) returns (average: real, count: nat)
    ensures var h := Hub(map[], ratings, map[]); count == |RatingsOf(h, m)| && average == Mean(h, m)
  {
    var todo := ratings.Keys;
    var sum := 0;
    count := 0;
    ghost var seen: set<(string, string)> := {};
    ghost var rows: set<(string, string)> := {};
    while todo != {}
      invariant todo !! seen && todo + seen == ratings.Keys
      invariant forall k :: k in rows <==> k in seen && k.0 == m
      invariant rows <= ratings.Keys && sum == Stars(rows, ratings) && count == |rows|
    {
      var k :| k in todo;
      if k.0 == m {
        StarsAdd(rows, ratings, k);
        sum, count, rows := sum + ratings[k], count + 1, rows + {k};
      }
      todo, seen := todo - {k}, seen + {k};
    }
    assert rows == RatingsOf(Hub(map[], ratings, map[]), m);
    average := if count == 0 then 0.0 else sum as real / count as real;
  }

  // ---- Operations ----

  /** `rating_count` and `average_rating` are refreshed when the module has a row; the rating is kept anyway. */
  ghost predicate Rated(h: Hub, m: string, publisher: string, stars: int, h': Hub) {
    if !(1 <= stars <= 5) then h' == h
    else
      && h'.ratings == h.ratings[(m, publisher) := stars]
      && h'.versions == h.versions
      && h'.modules == if m in h.modules
                       then h.modules[m := h.modules[m].(average := Mean(h', m), count := |RatingsOf(h', m)|)]
                       else h.modules
  }

  /** A new version and then its module's row; a version that exists is refused and nothing changes. */
  function Published(h: Hub, m: string, version: string, now: real): Hub {
    if (m, version) in h.versions then h
    else h.(
      versions := h.versions[(m, version) := VersionRow(now, false)],
      modules := h.modules[m := if m in h.modules then h.modules[m].(latest := version) else ModuleRow(version, 0.0, 0, 0, false)])
  }

  /** `DELETE ... WHERE module_id = m` */
  function RowsWithout<T>(table: map<(string, string), T>, m: string): map<(string, string), T> {
    map k | k in table && k.0 != m :: table[k]
  }

  function Deleted(h: Hub, m: string): Hub {
    Hub(h.modules - {m}, RowsWithout(h.ratings, m), RowsWithout(h.versions, m))
  }

  function Yanked(h: Hub, m: string, version: string): Hub {
    if (m, version) in h.versions
    then h.(versions := h.versions[(m, version) := h.versions[(m, version)].(yanked := true)])
    else h
  }

  function WithRow(h: Hub, m: string, row: ModuleRow): Hub {
    h.(modules := h.modules[m := row])
  }

  function Deprecated(h: Hub, m: string): Hub {
    if m in h.modules then WithRow(h, m, h.modules[m].(deprecated := true)) else h
  }

  function Downloaded(h: Hub, m: string): Hub {
    if m in h.modules then WithRow(h, m, h.modules[m].(downloads := h.modules[m].downloads + 1)) else h
  }

  // ---- Invariants ----

  /** The repeated columns agree with the rating rows. */
  ghost predicate Agrees(h: Hub) {
    forall m | m in h.modules :: h.modules[m].count == |RatingsOf(h, m)| && h.modules[m].average == Mean(h, m)
  }

  ghost predicate NoOrphans(h: Hub) {
    forall k | k in h.ratings :: k.0 in h.modules
  }

  /** Each module's latest version is its last published one; publication times differ. */
  ghost predicate LatestIsLast(h: Hub) {
    && (forall k | k in h.versions :: k.0 in h.modules)
    && (forall m | m in h.modules :: (m, h.modules[m].latest) in h.versions)
    && (forall k | k in h.versions && k.1 != h.modules[k.0].latest ::
          h.versions[k].publishedAt < h.versions[(k.0, h.modules[k.0].latest)].publishedAt)
  }

  ghost predicate Inv(h: Hub) {
    Agrees(h) && NoOrphans(h) && LatestIsLast(h)
  }

  ghost predicate Later(h: Hub, now: real) {
    forall k | k in h.versions :: h.versions[k].publishedAt < now
  }

  lemma SameRatings(h: Hub, h': Hub, m: string)
    requires RatingsOf(h, m) == RatingsOf(h', m) && forall k | k in RatingsOf(h, m) :: h.ratings[k] == h'.ratings[k]
    ensures Mean(h, m) == Mean(h', m)
  {
    StarsSame(RatingsOf(h, m), h.ratings, h'.ratings);
  }

  /** A module whose rating rows and repeated columns stay the same, or which is new and has no rating. */
  ghost predicate Undisturbed(h: Hub, h': Hub, n: string) {
    n in h'.modules &&
    if n in h.modules then
      && RatingsOf(h', n) == RatingsOf(h, n) && (forall k | k in RatingsOf(h, n) :: h.ratings[k] == h'.ratings[k])
      && h'.modules[n].count == h.modules[n].count && h'.modules[n].average == h.modules[n].average
    else RatingsOf(h', n) == {} && h'.modules[n].count == 0 && h'.modules[n].average == 0.0
  }

  lemma StillAgrees(h: Hub, h': Hub, n: string)
    requires Agrees(h) && Undisturbed(h, h', n)
    ensures h'.modules[n].count == |RatingsOf(h', n)| && h'.modules[n].average == Mean(h', n)
  {
    if n in h.modules {
      SameRatings(h, h', n);
    }
  }

  lemma AllUndisturbed(h: Hub, h': Hub)
    requires Agrees(h) && forall n | n in h'.modules :: Undisturbed(h, h', n)
    ensures Agrees(h')
  {
    forall n | n in h'.modules { StillAgrees(h, h', n); }
  }

  lemma RatedAgrees(h: Hub, m: string, publisher: string, stars: int, h': Hub)
    requires Agrees(h) && Rated(h, m, publisher, stars, h')
    ensures Agrees(h')
  {
    if 1 <= stars <= 5 {
      forall n | n in h'.modules && n != m ensures h'.modules[n].count == |RatingsOf(h', n)| && h'.modules[n].average == Mean(h', n) {
        assert RatingsOf(h', n) == RatingsOf(h, n);
        StillAgrees(h, h', n);
      }
    }
  }

  /** Rating a module that has a row keeps the columns in agreement. */
  lemma RatedKeeps(h: Hub, m: string, publisher: string, stars: int, h': Hub)
    requires Inv(h) && Rated(h, m, publisher, stars, h') && m in h.modules
    ensures Inv(h')
  {
    RatedAgrees(h, m, publisher, stars, h');
    if 1 <= stars <= 5 {
      RatedOthers(h, m, publisher, stars, h');
    }
  }

  lemma RatedOthers(h: Hub, m: string, publisher: string, stars: int, h': Hub)
    requires NoOrphans(h) && LatestIsLast(h) && Rated(h, m, publisher, stars, h') && m in h.modules && 1 <= stars <= 5
    ensures NoOrphans(h') && LatestIsLast(h')
  {
    assert h'.modules.Keys == h.modules.Keys;
    forall n | n in h.modules ensures h'.modules[n].latest == h.modules[n].latest {}
  }

  /** Operations that leave the rating table alone. */
  lemma SameTableAgrees(h: Hub, h': Hub)
    requires Agrees(h) && h'.ratings == h.ratings
    requires forall n | n in h'.modules ::
      if n in h.modules then h'.modules[n].count == h.modules[n].count && h'.modules[n].average == h.modules[n].average
      else RatingsOf(h, n) == {} && h'.modules[n].count == 0 && h'.modules[n].average == 0.0
    ensures Agrees(h')
  {
    forall n | n in h'.modules ensures Undisturbed(h, h', n) {
      assert RatingsOf(h', n) == RatingsOf(h, n);
    }
    AllUndisturbed(h, h');
  }

  /** Operations that leave the latest versions and the publication times alone. */
  lemma SameTimesLatest(h: Hub, h': Hub)
    requires NoOrphans(h) && LatestIsLast(h) && h'.ratings == h.ratings
    requires h'.modules.Keys == h.modules.Keys && forall n | n in h.modules :: h'.modules[n].latest == h.modules[n].latest
    requires h'.versions.Keys == h.versions.Keys && forall k | k in h.versions :: h'.versions[k].publishedAt == h.versions[k].publishedAt
    ensures NoOrphans(h') && LatestIsLast(h')
  {
  }

  lemma PublishedKeeps(h: Hub, m: string, version: string, now: real)
    requires Inv(h) && Later(h, now)
    ensures Inv(Published(h, m, version, now))
  {
    if m !in h.modules {
      assert RatingsOf(h, m) == {};
    }
    SameTableAgrees(h, Published(h, m, version, now));
    PublishedLatest(h, m, version, now);
  }

  lemma PublishedLatest(h: Hub, m: string, version: string, now: real)
    requires NoOrphans(h) && LatestIsLast(h) && Later(h, now)
    ensures NoOrphans(Published(h, m, version, now)) && LatestIsLast(Published(h, m, version, now))
  {
  }

  lemma DeletedAgrees(h: Hub, m: string)
    requires Agrees(h)
    ensures Agrees(Deleted(h, m))
  {
    var h' := Deleted(h, m);
    forall n | n in h'.modules ensures Undisturbed(h, h', n) {
      assert RatingsOf(h', n) == RatingsOf(h, n);
    }
    AllUndisturbed(h, h');
  }

  lemma DeletedKeeps(h: Hub, m: string)
    requires Inv(h)
    ensures Inv(Deleted(h, m))
  {
    DeletedAgrees(h, m);
    DeletedLatest(h, m);
  }

  lemma DeletedLatest(h: Hub, m: string)
    requires NoOrphans(h) && LatestIsLast(h)
    ensures NoOrphans(Deleted(h, m)) && LatestIsLast(Deleted(h, m))
  {
  }

  lemma YankedKeeps(h: Hub, m: string, version: string)
    requires Inv(h)
    ensures Inv(Yanked(h, m, version))
  {
    SameTableAgrees(h, Yanked(h, m, version));
    SameTimesLatest(h, Yanked(h, m, version));
  }

  /** Changes of a module's row outside the repeated columns. */
  lemma RowKeeps(h: Hub, m: string, row: ModuleRow)
    requires Inv(h) && m in h.modules
    requires var r := h.modules[m]; row.latest == r.latest && row.average == r.average && row.count == r.count
    ensures Inv(WithRow(h, m, row))
  {
    var h' := WithRow(h, m, row);
    SameTableAgrees(h, h');
    assert h'.modules.Keys == h.modules.Keys;
    SameTimesLatest(h, h');
  }

  lemma DeprecatedKeeps(h: Hub, m: string)
    requires Inv(h)
    ensures Inv(Deprecated(h, m))
  {
    if m in h.modules {
      RowKeeps(h, m, h.modules[m].(deprecated := true));
    }
  }

  lemma DownloadedKeeps(h: Hub, m: string)
    requires Inv(h)
    ensures Inv(Downloaded(h, m))
  {
    if m in h.modules {
      var row := h.modules[m].(downloads := h.modules[m].downloads + 1);
      assert Downloaded(h, m) == WithRow(h, m, row);
      RowKeeps(h, m, row);
    }
  }

  // ---- Runs ----

  datatype Op =
    | Rate(m: string, publisher: string, stars: int)
    | Publish(m: string, version: string, now: real)
    | Delete(m: string)
    | Yank(m: string, version: string)
    | Deprecate(m: string)
    | Download(m: string)

  ghost predicate Step(h: Hub, op: Op, h': Hub) {
    match op
    case Rate(m, publisher, stars) => Rated(h, m, publisher, stars, h')
    case Publish(m, version, now) => h' == Published(h, m, version, now)
    case Delete(m) => h' == Deleted(h, m)
    case Yank(m, version) => h' == Yanked(h, m, version)
    case Deprecate(m) => h' == Deprecated(h, m)
    case Download(m) => h' == Downloaded(h, m)
  }

  /** A rating of one to five stars replaces the publisher's earlier one; any other is refused. */
  lemma RatedExact(h: Hub, m: string, publisher: string, stars: int, h': Hub)
    requires Rated(h, m, publisher, stars, h')
    ensures stars < 1 || stars > 5 ==> h' == h
    ensures 1 <= stars <= 5 ==>
      && (m, publisher) in h'.ratings && h'.ratings[(m, publisher)] == stars
      && (forall k | k != (m, publisher) :: (k in h'.ratings <==> k in h.ratings) && (k in h.ratings ==> h'.ratings[k] == h.ratings[k]))
      && h'.versions == h.versions && h'.modules.Keys == h.modules.Keys
      && (forall n | n in h.modules && n != m :: h'.modules[n] == h.modules[n])
  {
  }

  lemma Quotient(sum: int, n: nat)
    requires n > 0
    ensures (sum as real / n as real) * n as real == sum as real
  {
  }

  /** The mean times the number of a module's ratings is their sum. */
  lemma MeanExact(h: Hub, m: string)
    ensures var rows := RatingsOf(h, m);
      if rows == {} then Mean(h, m) == 0.0 else Mean(h, m) * |rows| as real == Stars(rows, h.ratings) as real
  {
    if RatingsOf(h, m) != {} {
      Quotient(Stars(RatingsOf(h, m), h.ratings), |RatingsOf(h, m)|);
    }
  }

  /** A yanked version is not the latest one any more; no other version changes, nor its publication time. */
  lemma YankedExact(h: Hub, m: string, version: string)
    requires (m, version) in h.versions
    ensures var h' := Yanked(h, m, version);
      && h'.versions.Keys == h.versions.Keys && h'.versions[(m, version)].yanked && !IsLatest(h', m, version)
      && h'.versions[(m, version)].publishedAt == h.versions[(m, version)].publishedAt
      && (forall k | k in h.versions && k != (m, version) :: h'.versions[k] == h.versions[k])
      && h'.modules == h.modules && h'.ratings == h.ratings
  {
  }

  /** A version that is published last is the latest one, and only it; counts, means and downloads are kept. */
  lemma PublishedExact(h: Hub, m: string, version: string, now: real)
    requires (m, version) !in h.versions && Later(h, now)
    ensures var h' := Published(h, m, version, now);
      && IsLatest(h', m, version) && (forall v | IsLatest(h', m, v) :: v == version)
      && m in h'.modules && h'.modules[m].latest == version
      && (m in h.modules ==> h'.modules[m] == h.modules[m].(latest := version))
      && (m !in h.modules ==> h'.modules[m].count == 0 && h'.modules[m].average == 0.0 && h'.modules[m].downloads == 0 && !h'.modules[m].deprecated)
      && (forall n | n in h.modules && n != m :: n in h'.modules && h'.modules[n] == h.modules[n])
      && (forall k | k in h.versions :: k in h'.versions && h'.versions[k] == h.versions[k])
  {
  }

  lemma DeletedExact(h: Hub, m: string)
    ensures var h' := Deleted(h, m);
      && m !in h'.modules && (forall n | n != m :: (n in h'.modules <==> n in h.modules) && (n in h.modules ==> h'.modules[n] == h.modules[n]))
      && (forall k :: k in h'.versions <==> k in h.versions && k.0 != m) && (forall k | k in h'.versions :: h'.versions[k] == h.versions[k])
      && (forall k :: k in h'.ratings <==> k in h.ratings && k.0 != m) && (forall k | k in h'.ratings :: h'.ratings[k] == h.ratings[k])
  {
  }

  /** What the history of a module says about two of its columns: the downloads since its row exists, and
      whether it was deprecated since. */
  ghost function DownloadsOf(ops: seq<Op>, states: seq<Hub>, m: string): nat
    requires |states| == |ops| + 1
  {
    if ops == [] then 0
    else
      var n := |ops| - 1;
      if m !in states[n].modules then 0
      else DownloadsOf(ops[..n], states[..n + 1], m) + if ops[n] == Download(m) then 1 else 0
  }

  ghost function WasDeprecated(ops: seq<Op>, states: seq<Hub>, m: string): bool
    requires |states| == |ops| + 1
  {
    ops != [] &&
    var n := |ops| - 1;
    m in states[n].modules && (ops[n] == Deprecate(m) || WasDeprecated(ops[..n], states[..n + 1], m))
  }

  lemma ColumnsStep(h: Hub, op: Op, h': Hub, m: string)
    requires Step(h, op, h') && m in h'.modules
    ensures m in h.modules ==>
      && h'.modules[m].downloads == h.modules[m].downloads + (if op == Download(m) then 1 else 0)
      && (h'.modules[m].deprecated <==> h.modules[m].deprecated || op == Deprecate(m))
    ensures m !in h.modules ==> h'.modules[m].downloads == 0 && !h'.modules[m].deprecated
  {
  }

  /** In every run a module's downloads are counted, and its deprecation is remembered, while it has a row. */
  lemma {:induction false} ReachableColumns(ops: seq<Op>, states: seq<Hub>, m: string)
    requires |states| == |ops| + 1 && states[0] == Hub(map[], map[], map[])
    requires forall i | 0 <= i < |ops| :: Step(states[i], ops[i], states[i + 1])
    requires m in states[|ops|].modules
    ensures states[|ops|].modules[m].downloads == DownloadsOf(ops, states, m)
    ensures states[|ops|].modules[m].deprecated == WasDeprecated(ops, states, m)
    decreases |ops|
  {
    if ops != [] {
      var n := |ops| - 1;
      ColumnsStep(states[n], ops[n], states[n + 1], m);
      if m in states[n].modules {
        ReachableColumns(ops[..n], states[..n + 1], m);
      }
    }
  }

  /** The module gets its row now. */
  predicate FirstPublication(h: Hub, op: Op) {
    op.Publish? && op.m !in h.modules && (op.m, op.version) !in h.versions
  }

  /** The only operation after which the columns may disagree is a first publication, and then they do if
      and only if the module already has ratings. */
  lemma AgreesExactly(h: Hub, op: Op, h': Hub)
    requires Agrees(h) && Step(h, op, h')
    ensures Agrees(h') <==> (FirstPublication(h, op) ==> RatingsOf(h, op.m) == {})
  {
    match op
    case Rate(m, publisher, stars) => RatedAgrees(h, m, publisher, stars, h');
    case Publish(m, version, now) =>
      if FirstPublication(h, op) {
        PublishAgreesUnlessOrphans(h, m, version, now);
      } else {
        SameTableAgrees(h, h');
      }
    case Delete(m) => DeletedAgrees(h, m);
    case Yank(_, _) => SameTableAgrees(h, h');
    case Deprecate(_) => SameTableAgrees(h, h');
    case Download(_) => SameTableAgrees(h, h');
  }

  lemma OrphansStep(h: Hub, op: Op, h': Hub)
    requires NoOrphans(h) && Step(h, op, h') && (op.Rate? ==> op.m in h.modules)
    ensures NoOrphans(h') && (FirstPublication(h, op) ==> RatingsOf(h, op.m) == {})
  {
  }

  /** In every run in which modules are published before they are rated, counts and means agree with the
      rating rows in every state, whatever the times. */
  lemma {:induction false} ReachableAggregates(ops: seq<Op>, states: seq<Hub>, k: nat)
    requires |states| == |ops| + 1 && states[0] == Hub(map[], map[], map[])
    requires forall i | 0 <= i < |ops| :: (ops[i].Rate? ==> ops[i].m in states[i].modules) && Step(states[i], ops[i], states[i + 1])
    requires k < |states|
    ensures Agrees(states[k]) && NoOrphans(states[k])
  {
    if k > 0 {
      ReachableAggregates(ops, states, k - 1);
      OrphansStep(states[k - 1], ops[k - 1], states[k]);
      AgreesExactly(states[k - 1], ops[k - 1], states[k]);
    }
  }

  /** Modules are rated once they are published, and publication times increase. */
  ghost predicate InOrder(h: Hub, op: Op) {
    (op.Rate? ==> op.m in h.modules) && (op.Publish? ==> Later(h, op.now))
  }

  lemma StepKeeps(h: Hub, op: Op, h': Hub)
    requires Inv(h) && InOrder(h, op) && Step(h, op, h')
    ensures Inv(h')
  {
    match op
    case Rate(m, publisher, stars) => RatedKeeps(h, m, publisher, stars, h');
    case Publish(m, version, now) => PublishedKeeps(h, m, version, now);
    case Delete(m) => DeletedKeeps(h, m);
    case Yank(m, version) => YankedKeeps(h, m, version);
    case Deprecate(m) => DeprecatedKeeps(h, m);
    case Download(m) => DownloadedKeeps(h, m);
  }

  /** In every state of every run the repeated columns agree with the rating rows, and the latest versions
      with the version rows. */
  lemma {:induction false} ReachableAgree(ops: seq<Op>, states: seq<Hub>, k: nat)
    requires |states| == |ops| + 1 && states[0] == Hub(map[], map[], map[])
    requires forall i | 0 <= i < |ops| :: InOrder(states[i], ops[i]) && Step(states[i], ops[i], states[i + 1])
    requires k < |states|
    ensures Inv(states[k])
  {
    if k > 0 {
      ReachableAgree(ops, states, k - 1);
      StepKeeps(states[k - 1], ops[k - 1], states[k]);
    }
  }

  /** Why ratings need a module: publishing a module agrees with its rating rows exactly when it has none yet. */
  lemma PublishAgreesUnlessOrphans(h: Hub, m: string, version: string, now: real)
    requires Agrees(h) && m !in h.modules && (m, version) !in h.versions
    ensures Agrees(Published(h, m, version, now)) <==> RatingsOf(h, m) == {}
  {
    var h' := Published(h, m, version, now);
    forall n | n in h'.modules ensures RatingsOf(h', n) == RatingsOf(h, n) && Mean(h', n) == Mean(h, n) {
      assert RatingsOf(h', n) == RatingsOf(h, n);
      SameRatings(h, h', n);
    }
  }

  // ---- The latest version ----

  /** `get_latest_version`: an un-yanked version published last. */
  ghost predicate IsLatest(h: Hub, m: string, version: string) {
    && (m, version) in h.versions && !h.versions[(m, version)].yanked
    && forall k | k in h.versions && k.0 == m && !h.versions[k].yanked ::
         h.versions[k].publishedAt <= h.versions[(m, version)].publishedAt
  }

  /** The module row names what `get_latest_version` answers exactly while that version is not yanked. */
  lemma LatestAgrees(h: Hub, m: string)
    requires Inv(h) && m in h.modules
    ensures var latest := h.modules[m].latest;
      && (IsLatest(h, m, latest) <==> !h.versions[(m, latest)].yanked)
      && (!h.versions[(m, latest)].yanked ==> forall v | IsLatest(h, m, v) :: v == latest)
  {
    var latest := h.modules[m].latest;
    forall v | IsLatest(h, m, v) && !h.versions[(m, latest)].yanked ensures v == latest {
      assert h.versions[(m, latest)].publishedAt <= h.versions[(m, v)].publishedAt;
    }
  }

  class HubStore {
    var modules: map<string, ModuleRow>
    var ratings: map<(string, string), int>
    var versions: map<(string, string), VersionRow>

    constructor ()
      ensures Tables() == Hub(map[], map[], map[]) && Inv(Tables())
    {
      modules, ratings, versions := map[], map[], map[];
    }

    function Tables(): Hub
      reads this
    {
      Hub(modules, ratings, versions)
    }

    method AddRating(m: string, publisher: string, stars: int)
      modifies this
      ensures Rated(old(Tables()), m, publisher, stars, Tables())
      ensures old(Inv(Tables())) && m in old(modules) ==> Inv(Tables())
    {
      if 1 <= stars <= 5 {
        ratings := ratings[(m, publisher) := stars];
        if m in modules {
          var average, count := Aggregate(ratings, m);
          modules := modules[m := modules[m].(average := average, count := count)];
          assert RatingsOf(Tables(), m) == RatingsOf(Hub(map[], ratings, map[]), m);
        }
      }
      if old(Inv(Tables())) && m in old(modules) {
        RatedKeeps(old(Tables()), m, publisher, stars, Tables());
      }
    }

    method Publish(m: string, version: string, now: real)
      modifies this
      ensures Tables() == Published(old(Tables()), m, version, now)
      ensures old(Inv(Tables()) && Later(Tables(), now)) ==> Inv(Tables())
    {
      if old(Inv(Tables()) && Later(Tables(), now)) {
        PublishedKeeps(Tables(), m, version, now);
      }
      if (m, version) !in versions {
        versions := versions[(m, version) := VersionRow(now, false)];
        modules := modules[m := if m in modules then modules[m].(latest := version) else ModuleRow(version, 0.0, 0, 0, false)];
      }
    }

    method DeleteModule(m: string) returns (found: bool)
      modifies this
      ensures Tables() == Deleted(old(Tables()), m) && found == (m in old(modules))
      ensures old(Inv(Tables())) ==> Inv(Tables())
    {
      if old(Inv(Tables())) {
        DeletedKeeps(Tables(), m);
      }
      found := m in modules;
      modules := modules - {m};
      versions := RowsWithout(versions, m);
      ratings := RowsWithout(ratings, m);
    }

    method YankVersion(m: string, version: string) returns (found: bool)
      modifies `versions
      ensures Tables() == Yanked(old(Tables()), m, version) && found == ((m, version) in old(versions))
      ensures old(Inv(Tables())) ==> Inv(Tables())
    {
      if old(Inv(Tables())) {
        YankedKeeps(Tables(), m, version);
      }
      found := (m, version) in versions;
      if found {
        versions := versions[(m, version) := versions[(m, version)].(yanked := true)];
      }
    }

    method DeprecateModule(m: string) returns (found: bool)
      modifies `modules
      ensures Tables() == Deprecated(old(Tables()), m) && found == (m in old(modules))
      ensures old(Inv(Tables())) ==> Inv(Tables())
    {
      if old(Inv(Tables())) {
        DeprecatedKeeps(Tables(), m);
      }
      found := m in modules;
      if found {
        modules := modules[m := modules[m].(deprecated := true)];
      }
    }

    method IncrementDownloads(m: string)
      modifies `modules
      ensures Tables() == Downloaded(old(Tables()), m)
      ensures old(Inv(Tables())) ==> Inv(Tables())
    {
      if old(Inv(Tables())) {
        DownloadedKeeps(Tables(), m);
      }
      if m in modules {
        modules := modules[m := modules[m].(downloads := modules[m].downloads + 1)];
      }
    }

    /** `get_latest_version`, as a scan of the module's un-yanked rows. */
    method GetLatestVersion(m: string) returns (latest: Option<string>)
      ensures latest.Some? ==> IsLatest(Tables(), m, latest.value)
      ensures latest.None? ==> forall k | k in versions && k.0 == m :: versions[k].yanked
    {
      latest := None;
      var todo := versions.Keys;
      while todo != {}
        invariant todo <= versions.Keys
        invariant latest.Some? ==> (m, latest.value) in versions.Keys - todo && !versions[(m, latest.value)].yanked
        invariant forall k | k in versions && k !in todo && k.0 == m && !versions[k].yanked ::
          latest.Some? && versions[k].publishedAt <= versions[(m, latest.value)].publishedAt
      {
        var k :| k in todo;
        if k.0 == m && !versions[k].yanked && (latest.None? || versions[k].publishedAt > versions[(m, latest.value)].publishedAt) {
          latest := Some(k.1);
        }
        todo := todo - {k};
      }
    }
  }
}
