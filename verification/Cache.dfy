/**
 The SQLite cache and the in-memory mock as expiring maps, checked against a reading that looks only at the history of
 writes; and the isolation of tenants that share one table. Times are microseconds.
 */
module Cache {
  import opened Basics

  const MAX_KEY_LENGTH := 250
  const CENTURY := 36500 * 24 * 3600 * 1_000_000

  datatype Backend = Sqlite | Mock

  datatype Row = Row(value: string, expires: Option<int>)

  type Rows = map<string, Row>

  datatype Result<+T> = Ok(value: T) | ValueError

  /** Each backend's own boundary test: at the moment of expiry SQLite reads nothing, the mock still reads. */
  predicate Alive(backend: Backend, expires: Option<int>, now: int) {
    expires.None? || if backend == Sqlite then expires.value > now else expires.value >= now
  }

  predicate Contains(s: string, part: string) {
    part <= s || (s != "" && Contains(s[1..], part))
  }

  /** `_validate_cache_key`. */
  predicate ValidKey(key: string) {
    && key != "" && |key| <= MAX_KEY_LENGTH
    && '\n' !in key && '\r' !in key && '\0' !in key
    && !Contains(key, "..") && key[0] != '/' && key[0] != '\\'
  }

  function Prefix(backend: Backend, tenant: string): string {
    if backend == Sqlite then tenant + ":" else "tenant:" + tenant + ":"
  }

  // ---- what clearing a tenant matches ----

  /** SQLite folds the case of ASCII letters, and of nothing else. */
  function Fold(c: char): char { if 'A' <= c <= 'Z' then c - 'A' + 'a' else c }

  /** `text LIKE pattern`, without an escape character. */
  predicate Like(pattern: string, text: string)
    decreases |pattern| + |text|
  {
    if pattern == "" then text == ""
    else if pattern[0] == '%' then Like(pattern[1..], text) || (text != "" && Like(pattern, text[1..]))
    else text != "" && (pattern[0] == '_' || Fold(pattern[0]) == Fold(text[0])) && Like(pattern[1..], text[1..])
  }

  predicate Clears(backend: Backend, tenant: string, key: string) {
    if backend == Sqlite then Like(Prefix(backend, tenant) + "%", key) else Prefix(backend, tenant) <= key
  }

  // ---- one store ----

  /** Keys are tenant-scoped. `evicted` is what an overflowing set of the mock removes. */
  datatype Op = Get(key: string, now: int) | Set(key: string, row: Row, now: int, evicted: set<string>)
              | Delete(key: string) | Clear(tenant: string) | Cleanup(now: int)

  function Live(backend: Backend, rows: Rows, now: int): Rows {
    map k | k in rows && Alive(backend, rows[k].expires, now) :: rows[k]
  }

  predicate Overflows(rows: Rows, op: Op, maxEntries: nat) {
    op.Set? && |rows[op.key := op.row]| > maxEntries
  }

  /** A tenth of the rows, none of which expires later than a row that stays. */
  predicate Oldest(rows: Rows, evicted: set<string>) {
    && evicted <= rows.Keys && |evicted| == |rows| / 10
    && forall a, b :: a in evicted && b in rows && b !in evicted ==> Sooner(rows[a].expires, rows[b].expires)
  }

  predicate Sooner(a: Option<int>, b: Option<int>) { b.None? || (a.Some? && a.value <= b.value) }

  predicate Enabled(backend: Backend, maxEntries: nat, rows: Rows, op: Op) {
    backend == Mock && Overflows(rows, op, maxEntries) ==> Oldest(rows[op.key := op.row], op.evicted)
  }

  function Next(backend: Backend, maxEntries: nat, rows: Rows, op: Op): Rows {
    match op
    case Get(key, now) =>
      if backend == Mock && key in rows && !Alive(backend, rows[key].expires, now) then rows - {key} else rows
    case Set(key, row, _, evicted) =>
      if backend == Mock && Overflows(rows, op, maxEntries) then rows[key := row] - evicted else rows[key := row]
    case Delete(key) => rows - {key}
    case Clear(tenant) => map k | k in rows && !Clears(backend, tenant, k) :: rows[k]
    case Cleanup(now) => Live(backend, rows, now)
  }

  function Read(backend: Backend, rows: Rows, key: string, now: int): Option<string> {
    if key in rows && Alive(backend, rows[key].expires, now) then Some(rows[key].value) else None
  }

  // ---- which rows an eviction takes ----

  predicate Distinct(s: seq<string>) { s == [] || (s[0] !in s[1..] && Distinct(s[1..])) }

  /** `order` lists the keys of the table, as a Python dict does: in the order in which they came in. */
  ghost predicate OrderOf(order: seq<string>, rows: Rows) {
    Distinct(order) && forall k :: k in order <==> k in rows
  }

  function Without(order: seq<string>, gone: set<string>): seq<string> {
    if order == [] then []
    else if order[0] in gone then Without(order[1..], gone)
    else [order[0]] + Without(order[1..], gone)
  }

  /** The order after `key` was stored. */
  function Listed(order: seq<string>, key: string): seq<string> { if key in order then order else order + [key] }

  /** The position of `key`, or the length if it is missing. */
  function Place(order: seq<string>, key: string): nat {
    if order == [] || order[0] == key then 0 else 1 + Place(order[1..], key)
  }

  /** `a` goes before `b`: it expires earlier, or at the same time and came in earlier. */
  predicate Ahead(rows: Rows, order: seq<string>, a: string, b: string)
    requires a in rows && b in rows
  {
    Sooner(rows[a].expires, rows[b].expires)
    && (Sooner(rows[b].expires, rows[a].expires) ==> Place(order, a) < Place(order, b))
  }

  function InsertKey(rows: Rows, key: string, s: seq<string>): seq<string>
    requires key in rows && forall k :: k in s ==> k in rows
  {
    if s == [] || Sooner(rows[key].expires, rows[s[0]].expires) then [key] + s
    else [s[0]] + InsertKey(rows, key, s[1..])
  }

  /** `sorted(data.keys(), key=expires_at)`: Python's sort keeps equal keys in order. */
  function ByExpiry(rows: Rows, order: seq<string>): (r: seq<string>)
    requires forall k :: k in order ==> k in rows
    ensures forall k :: k in r ==> k in rows
  {
    if order == [] then []
    else
      InsertKeyMembers(rows, order[0], ByExpiry(rows, order[1..]));
      InsertKey(rows, order[0], ByExpiry(rows, order[1..]))
  }

  lemma {:induction false} InsertKeyMembers(rows: Rows, key: string, s: seq<string>)
    requires key in rows && forall k :: k in s ==> k in rows
    ensures var r := InsertKey(rows, key, s); |r| == |s| + 1 && forall k :: k in r <==> k == key || k in s
  {
    if s != [] && !Sooner(rows[key].expires, rows[s[0]].expires) {
      InsertKeyMembers(rows, key, s[1..]);
    }
  }

  lemma {:induction false} SortedMembers(rows: Rows, order: seq<string>)
    requires forall k :: k in order ==> k in rows
    ensures var r := ByExpiry(rows, order); |r| == |order| && forall k :: k in r <==> k in order
  {
    if order != [] {
      SortedMembers(rows, order[1..]);
      InsertKeyMembers(rows, order[0], ByExpiry(rows, order[1..]));
    }
  }

  ghost predicate Queued(rows: Rows, order: seq<string>, s: seq<string>) {
    && (forall k :: k in s ==> k in rows)
    && forall i, j :: 0 <= i < j < |s| ==> Ahead(rows, order, s[i], s[j])
  }

  lemma SoonerOrder(a: Option<int>, b: Option<int>, c: Option<int>)
    ensures Sooner(a, a) && (Sooner(a, b) || Sooner(b, a)) && (Sooner(a, b) && Sooner(b, c) ==> Sooner(a, c))
  {}

  lemma {:induction false} InsertQueued(rows: Rows, order: seq<string>, key: string, s: seq<string>)
    requires key in rows && Queued(rows, order, s) && forall k :: k in s ==> Place(order, key) < Place(order, k)
    ensures Queued(rows, order, InsertKey(rows, key, s))
  {
    hide Place, Sooner;
    InsertKeyMembers(rows, key, s);
    if s == [] {
    } else if Sooner(rows[key].expires, rows[s[0]].expires) {
      forall j | 0 <= j < |s| ensures Ahead(rows, order, key, s[j]) {
        SoonerOrder(rows[key].expires, rows[s[0]].expires, rows[s[j]].expires);
        SoonerOrder(rows[s[0]].expires, rows[s[0]].expires, rows[s[0]].expires);
        assert j == 0 || Ahead(rows, order, s[0], s[j]);
        assert s[j] in s;
      }
    } else {
      InsertKeyMembers(rows, key, s[1..]);
      InsertQueued(rows, order, key, s[1..]);
      SoonerOrder(rows[s[0]].expires, rows[key].expires, rows[key].expires);
      var r := InsertKey(rows, key, s[1..]);
      forall j | 0 <= j < |r| ensures Ahead(rows, order, s[0], r[j]) {
        if r[j] != key {
          assert r[j] in s[1..];
          var i :| 0 <= i < |s[1..]| && s[1..][i] == r[j];
          assert Ahead(rows, order, s[0], s[i + 1]);
        }
      }
    }
  }

  /** The sort puts every key ahead of those after it. */
  lemma {:induction false} SortQueued(rows: Rows, order: seq<string>)
    requires Distinct(order) && forall k :: k in order ==> k in rows
    ensures Queued(rows, order, ByExpiry(rows, order))
  {
    if order != [] {
      var rest := order[1..];
      var s := ByExpiry(rows, rest);
      SortQueued(rows, rest);
      SortedMembers(rows, rest);
      forall k | k in s ensures Place(order, k) == 1 + Place(rest, k) {
        assert k in rest && k != order[0];
      }
      assert Queued(rows, order, s);
      InsertQueued(rows, order, order[0], s);
    }
  }

  /** The first `n` of the sorted keys, as a set. */
  function FirstKeys(s: seq<string>, n: nat): set<string>
    requires n <= |s|
  {
    set k | k in s[..n]
  }

  lemma {:induction false} FirstKeysSize(s: seq<string>, n: nat)
    requires n <= |s| && forall i, j :: 0 <= i < j < |s| ==> s[i] != s[j]
    ensures |FirstKeys(s, n)| == n
  {
    if n > 0 {
      FirstKeysSize(s, n - 1);
      assert s[..n] == s[..n - 1] + [s[n - 1]];
      assert FirstKeys(s, n) == FirstKeys(s, n - 1) + {s[n - 1]};
    }
  }

  /** Every evicted key is ahead of every one that stays. */
  ghost predicate EvictedFirst(rows: Rows, order: seq<string>, evicted: set<string>) {
    forall a, b :: a in evicted && a in rows && b in rows && b !in evicted ==> Ahead(rows, order, a, b)
  }

  lemma EvictsFirst(rows: Rows, order: seq<string>, n: nat)
    requires OrderOf(order, rows) && n <= |order|
    ensures var s := ByExpiry(rows, order);
            && |s| == |order|
            && FirstKeys(s, n) <= rows.Keys && |FirstKeys(s, n)| == n && EvictedFirst(rows, order, FirstKeys(s, n))
  {
    var s := ByExpiry(rows, order);
    SortQueued(rows, order);
    SortedMembers(rows, order);
    forall i, j | 0 <= i < j < |s| ensures s[i] != s[j] { assert Ahead(rows, order, s[i], s[j]); }
    FirstKeysSize(s, n);
    var evicted := FirstKeys(s, n);
    assert forall j :: 0 <= j < n ==> s[j] == s[..n][j] && s[j] in evicted;
    forall a, b | a in evicted && a in rows && b in rows && b !in evicted ensures Ahead(rows, order, a, b) {
      var i :| 0 <= i < n && s[..n][i] == a;
      assert b in order && b in s;
      var j :| 0 <= j < |s| && s[j] == b;
      assert s[i] == a;
    }
  }

  lemma {:induction false} OrderSize(order: seq<string>, rows: Rows)
    requires OrderOf(order, rows)
    ensures |order| == |rows|
  {
    if order == [] {
      assert rows.Keys == {};
    } else {
      var rest := rows - {order[0]};
      RemovedCount(rows, {order[0]});
      OrderSize(order[1..], rest);
    }
  }

  lemma {:induction false} WithoutOrder(order: seq<string>, gone: set<string>)
    ensures forall k :: k in Without(order, gone) <==> k in order && k !in gone
    ensures Distinct(order) ==> Distinct(Without(order, gone))
  {
    if order != [] {
      var rest := Without(order[1..], gone);
      WithoutOrder(order[1..], gone);
      assert ([order[0]] + rest)[1..] == rest;
    }
  }

  lemma {:induction false} DistinctAppend(order: seq<string>, key: string)
    requires Distinct(order) && key !in order
    ensures Distinct(order + [key])
  {
    if order != [] {
      assert (order + [key])[1..] == order[1..] + [key];
      DistinctAppend(order[1..], key);
    }
  }

  // ---- the classes ----

  class CacheTable {
    var rows: Rows

    constructor ()
      ensures rows == map[]
    {
      rows := map[];
    }
  }

  class SqliteCache {
    const table: CacheTable
    const tenant: string

    constructor (table: CacheTable, tenant: string)
      ensures this.table == table && this.tenant == tenant
    {
      this.table, this.tenant := table, tenant;
    }

    method Get(key: string, now: int) returns (r: Result<Option<string>>)
      ensures r == if ValidKey(key) then Ok(Read(Sqlite, table.rows, Prefix(Sqlite, tenant) + key, now)) else ValueError
    {
      if !ValidKey(key) { return ValueError; }
      var tenantKey := tenant + ":" + key;
      if tenantKey in table.rows {
        var row := table.rows[tenantKey];
        if row.expires == None || row.expires.value > now { return Ok(Some(row.value)); }
      }
      r := Ok(None);
    }

    /** `jittered` is the lifetime after jitter; a zero `ttl` counts as none. */
    method Set(key: string, value: string, ttl: Option<int>, jittered: int, now: int) returns (r: Result<()>)
      modifies table
      ensures r.Ok? <==> ValidKey(key)
      ensures table.rows ==
              if r.ValueError? then old(table.rows)
              else Next(Sqlite, 0, old(table.rows),
                        Op.Set(Prefix(Sqlite, tenant) + key, Row(value, Expiry(Sqlite, ttl, jittered, now)), now, {}))
    {
      if !ValidKey(key) { return ValueError; }
      var expires := None;
      if ttl.Some? && ttl.value != 0 { expires := Some(now + jittered); }
      table.rows := table.rows[tenant + ":" + key := Row(value, expires)];
      r := Ok(());
    }

    method Delete(key: string) returns (r: Result<()>)
      modifies table
      ensures r.Ok? <==> ValidKey(key)
      ensures table.rows == if r.ValueError? then old(table.rows)
                            else Next(Sqlite, 0, old(table.rows), Op.Delete(Prefix(Sqlite, tenant) + key))
    {
      if !ValidKey(key) { return ValueError; }
      table.rows := table.rows - {tenant + ":" + key};
      r := Ok(());
    }

    method Clear()
      modifies table
      ensures table.rows == Next(Sqlite, 0, old(table.rows), Op.Clear(tenant))
    {
      var pattern := tenant + ":" + "%";
      table.rows := map k | k in table.rows && !Like(pattern, k) :: table.rows[k];
    }

    method CleanupExpired(now: int) returns (count: nat)
      modifies table
      ensures table.rows == Next(Sqlite, 0, old(table.rows), Cleanup(now))
      ensures count == |old(table.rows)| - |table.rows|
    {
      var expired := set k | k in table.rows && table.rows[k].expires.Some? && table.rows[k].expires.value <= now;
      var before := table.rows;
      count := |expired|;
      table.rows := table.rows - expired;
      RemovedCount(before, expired);
    }
  }

  function Expiry(backend: Backend, ttl: Option<int>, jittered: int, now: int): Option<int> {
    if ttl.Some? && ttl.value != 0 then Some(now + jittered)
    else if backend == Mock then Some(now + CENTURY) else None
  }

  lemma RemovedCount(rows: Rows, gone: set<string>)
    requires gone <= rows.Keys
    ensures |rows - gone| == |rows| - |gone|
  {
    assert (rows - gone).Keys == rows.Keys - gone;
  }

  class MockCache {
    var data: Rows
    /** The keys of `data` in the order of the Python dict. */
    var order: seq<string>
    const tenant: string
    const maxEntries: nat

    ghost predicate Valid()
      reads this
    {
      OrderOf(order, data)
    }

    constructor (tenant: string, maxEntries: nat)
      ensures Valid() && data == map[] && this.tenant == tenant && this.maxEntries == maxEntries
    {
      data, order, this.tenant, this.maxEntries := map[], [], tenant, maxEntries;
    }

    method Remove(gone: set<string>)
      requires Valid()
      modifies this
      ensures Valid() && data == old(data) - gone && order == Without(old(order), gone)
    {
      WithoutOrder(order, gone);
      data, order := data - gone, Without(order, gone);
    }

    method Get(key: string, now: int) returns (r: Result<Option<string>>)
      requires Valid()
      modifies this
      ensures Valid()
      ensures r == if ValidKey(key) then Ok(Read(Mock, old(data), Prefix(Mock, tenant) + key, now)) else ValueError
      ensures r == Ok(None) ==> Prefix(Mock, tenant) + key !in data
      ensures data == if ValidKey(key)
                      then Next(Mock, maxEntries, old(data), Op.Get(Prefix(Mock, tenant) + key, now)) else old(data)
    {
      if !ValidKey(key) { return ValueError; }
      var tenantKey := "tenant:" + tenant + ":" + key;
      if tenantKey !in data { return Ok(None); }
      var row := data[tenantKey];
      if row.expires.Some? && now > row.expires.value {
        Remove({tenantKey});
        return Ok(None);
      }
      r := Ok(Some(row.value));
    }

    method Insert(key: string, row: Row)
      requires Valid()
      modifies this
      ensures Valid() && data == old(data)[key := row]
      ensures order == Listed(old(order), key)
    {
      if key !in data {
        DistinctAppend(order, key);
        order := order + [key];
      }
      data := data[key := row];
    }

    /** `evicted` is what an overflow removes: the first tenth of the keys, by expiry and then by age in the table. */
    method Set(key: string, value: string, ttl: Option<int>, jittered: int, now: int)
      returns (r: Result<()>, ghost evicted: set<string>)
      requires Valid()
      modifies this
      ensures Valid()
      ensures r.Ok? <==> ValidKey(key)
      ensures var op := Op.Set(Prefix(Mock, tenant) + key, Row(value, Expiry(Mock, ttl, jittered, now)), now, evicted);
              if r.ValueError? then data == old(data) && order == old(order)
              else
                && Enabled(Mock, maxEntries, old(data), op) && data == Next(Mock, maxEntries, old(data), op)
                && EvictedFirst(old(data)[op.key := op.row], Listed(old(order), op.key), evicted)
                && order == Without(Listed(old(order), op.key), evicted)
    {
      evicted := {};
      if !ValidKey(key) { return ValueError, {}; }
      hide *;
      var expires := now + CENTURY;
      if ttl.Some? && ttl.value != 0 { expires := now + jittered; }
      var tenantKey := "tenant:" + tenant + ":" + key;
      ScopedForMock(tenant, key, ttl, jittered, now);
      evicted := Put(tenantKey, Row(value, Some(expires)), now);
      r := Ok(());
    }

    /** Stores a row and evicts the oldest when there are too many. */
    method Put(key: string, row: Row, ghost now: int) returns (ghost evicted: set<string>)
      requires Valid()
      modifies this
      ensures Valid()
      ensures var op := Op.Set(key, row, now, evicted);
              && Enabled(Mock, maxEntries, old(data), op) && data == Next(Mock, maxEntries, old(data), op)
              && EvictedFirst(old(data)[key := row], Listed(old(order), key), evicted)
              && order == Without(Listed(old(order), key), evicted)
    {
      hide OrderOf, EvictedFirst, Oldest, Without, Listed;
      evicted := {};
      Insert(key, row);
      WithoutNothing(order);
      NothingFirst(data, order);
      if |data| > maxEntries {
        evicted := EvictOldest();
      }
    }

    /** Removes the first tenth of the keys. */
    method EvictOldest() returns (ghost evicted: set<string>)
      requires Valid()
      modifies this
      ensures Valid() && data == old(data) - evicted && order == Without(old(order), evicted)
      ensures Oldest(old(data), evicted) && EvictedFirst(old(data), old(order), evicted)
    {
      hide Ahead, Sooner;
      var count := |data| / 10;
      OrderSize(order, data);
      OrderedKeys(order, data);
      EvictsFirst(data, order, count);
      var oldest := FirstKeys(ByExpiry(data, order), count);
      EvictedOldest(data, order, oldest);
      evicted := oldest;
      Remove(oldest);
    }

    method Delete(key: string) returns (r: Result<()>)
      requires Valid()
      modifies this
      ensures Valid()
      ensures r.Ok? <==> ValidKey(key)
      ensures data == if r.ValueError? then old(data)
                      else Next(Mock, maxEntries, old(data), Op.Delete(Prefix(Mock, tenant) + key))
    {
      if !ValidKey(key) { return ValueError; }
      var tenantKey := "tenant:" + tenant + ":" + key;
      if tenantKey in data {
        Remove({tenantKey});
      }
      r := Ok(());
    }

    method CleanupExpired(now: int) returns (count: nat)
      requires Valid()
      modifies this
      ensures Valid()
      ensures data == Next(Mock, maxEntries, old(data), Cleanup(now))
      ensures count == |old(data)| - |data|
    {
      var expired := set k | k in data && data[k].expires.Some? && now > data[k].expires.value;
      count := |expired|;
      RemovedCount(data, expired);
      LeftAlive(data, expired, now);
      hide Live, Alive, OrderOf, Without;
      Remove(expired);
    }

    method Clear()
      requires Valid()
      modifies this
      ensures Valid()
      ensures data == Next(Mock, maxEntries, old(data), Op.Clear(tenant))
    {
      var prefix := "tenant:" + tenant + ":";
      var cleared := set k | k in data && prefix <= k;
      Remove(cleared);
    }
  }

  lemma LeftAlive(rows: Rows, expired: set<string>, now: int)
    requires expired == set k | k in rows && rows[k].expires.Some? && now > rows[k].expires.value
    ensures rows - expired == Live(Mock, rows, now)
  {}

  lemma ScopedForMock(tenant: string, key: string, ttl: Option<int>, jittered: int, now: int)
    ensures Prefix(Mock, tenant) + key == "tenant:" + tenant + ":" + key
    ensures Expiry(Mock, ttl, jittered, now) == Some(if ttl.Some? && ttl.value != 0 then now + jittered else now + CENTURY)
  {}

  lemma OrderedKeys(order: seq<string>, rows: Rows)
    requires OrderOf(order, rows)
    ensures forall k :: k in order ==> k in rows
  {}

  lemma {:induction false} WithoutNothing(order: seq<string>)
    ensures Without(order, {}) == order
  {
    if order != [] { WithoutNothing(order[1..]); }
  }

  lemma NothingFirst(rows: Rows, order: seq<string>)
    ensures EvictedFirst(rows, order, {})
  {}

  lemma EvictedOldest(rows: Rows, order: seq<string>, evicted: set<string>)
    requires evicted <= rows.Keys && |evicted| == |rows| / 10 && EvictedFirst(rows, order, evicted)
    ensures Oldest(rows, evicted)
  {
    forall a, b | a in evicted && b in rows && b !in evicted ensures Sooner(rows[a].expires, rows[b].expires) {
      assert Ahead(rows, order, a, b);
    }
  }

  // ---- the history of writes ----

  /** The value of `key` at `now`, from the last operation that concerns it; reads and clean-ups concern nothing. */
  function Recall(backend: Backend, ops: seq<Op>, key: string, now: int): Option<string> {
    if ops == [] then None
    else
      var before, last := ops[..|ops| - 1], ops[|ops| - 1];
      if last.Set? && last.key == key then
        (if Alive(backend, last.row.expires, now) then Some(last.row.value) else None)
      else if (last.Delete? && last.key == key) || (last.Clear? && Clears(backend, last.tenant, key)) then None
      else Recall(backend, before, key, now)
  }

  function After(backend: Backend, maxEntries: nat, ops: seq<Op>): Rows {
    if ops == [] then map[] else Next(backend, maxEntries, After(backend, maxEntries, ops[..|ops| - 1]), ops[|ops| - 1])
  }

  /** A set of the mock evicted `key` since the last operation that concerns it. */
  predicate Evicted(backend: Backend, maxEntries: nat, ops: seq<Op>, key: string) {
    if ops == [] then false
    else
      var before, last := ops[..|ops| - 1], ops[|ops| - 1];
      if backend == Mock && Overflows(After(backend, maxEntries, before), last, maxEntries) && key in last.evicted then true
      else if (last.Set? && last.key == key) || (last.Delete? && last.key == key)
              || (last.Clear? && Clears(backend, last.tenant, key)) then false
      else Evicted(backend, maxEntries, before, key)
  }

  predicate NeverOverflows(backend: Backend, maxEntries: nat, ops: seq<Op>) {
    ops == [] || (
      var before := ops[..|ops| - 1];
      && NeverOverflows(backend, maxEntries, before)
      && !(backend == Mock && Overflows(After(backend, maxEntries, before), ops[|ops| - 1], maxEntries)))
  }

  lemma {:induction false} NeverEvicted(backend: Backend, maxEntries: nat, ops: seq<Op>, key: string)
    requires NeverOverflows(backend, maxEntries, ops)
    ensures !Evicted(backend, maxEntries, ops, key)
  {
    if ops != [] { NeverEvicted(backend, maxEntries, ops[..|ops| - 1], key); }
  }

  /** No operation happened after `now`, as with a clock that never goes back. */
  predicate NotAfter(ops: seq<Op>, now: int) {
    forall i :: 0 <= i < |ops| && (ops[i].Get? || ops[i].Set? || ops[i].Cleanup?) ==> ops[i].now <= now
  }

  lemma NextRecalls(backend: Backend, maxEntries: nat, rows: Rows, op: Op, key: string, now: int)
    requires NotAfter([op], now)
    ensures Read(backend, Next(backend, maxEntries, rows, op), key, now) ==
            if backend == Mock && Overflows(rows, op, maxEntries) && key in op.evicted then None
            else if op.Set? && op.key == key then (if Alive(backend, op.row.expires, now) then Some(op.row.value) else None)
            else if (op.Delete? && op.key == key) || (op.Clear? && Clears(backend, op.tenant, key)) then None
            else Read(backend, rows, key, now)
  {
    assert op == [op][0];
    hide Clears;
  }

  /** Expiry refinement: whatever clean-ups ran and whatever reads deleted, a read returns what the writes alone say, for
      the boundary test of either backend, unless the key was evicted since it was last written: then nothing. */
  lemma {:induction false} StoreRecalls(backend: Backend, maxEntries: nat, ops: seq<Op>, key: string, now: int)
    requires NotAfter(ops, now)
    ensures Read(backend, After(backend, maxEntries, ops), key, now)
         == if Evicted(backend, maxEntries, ops, key) then None else Recall(backend, ops, key, now)
  {
    if ops != [] {
      var before, last := ops[..|ops| - 1], ops[|ops| - 1];
      StoreRecalls(backend, maxEntries, before, key, now);
      NextRecalls(backend, maxEntries, After(backend, maxEntries, before), last, key, now);
      hide Next, Clears, Overflows;
    }
  }

  /** The writes of a history: no reads, no clean-ups, and nothing about what was evicted. */
  function Writes(ops: seq<Op>): seq<Op> {
    if ops == [] then []
    else
      var last := ops[|ops| - 1];
      Writes(ops[..|ops| - 1]) + match last
                                 case Get(_, _) => []
                                 case Cleanup(_) => []
                                 case Set(key, row, now, _) => [Set(key, row, now, {})]
                                 case _ => [last]
  }

  lemma {:induction false} RecallOfWrites(backend: Backend, ops: seq<Op>, key: string, now: int)
    ensures Recall(backend, Writes(ops), key, now) == Recall(backend, ops, key, now)
  {
    if ops != [] {
      var before, last := ops[..|ops| - 1], ops[|ops| - 1];
      RecallOfWrites(backend, before, key, now);
      if last.Get? || last.Cleanup? {
        assert Writes(ops) == Writes(before);
      } else {
        assert Writes(ops)[..|Writes(before)|] == Writes(before);
      }
      hide Clears;
    }
  }

  /** When clean-ups show: two histories with the same writes, however they differ in reads, clean-ups and evictions, agree
      on a later read exactly when there is nothing to read or both or neither of them evicted the key. */
  lemma CleanupObservableExactly(backend: Backend, maxEntries: nat, ops: seq<Op>, other: seq<Op>, key: string, now: int)
    requires NotAfter(ops, now) && NotAfter(other, now) && Writes(ops) == Writes(other)
    ensures Read(backend, After(backend, maxEntries, ops), key, now) == Read(backend, After(backend, maxEntries, other), key, now)
       <==> || Recall(backend, ops, key, now).None?
            || (Evicted(backend, maxEntries, ops, key) <==> Evicted(backend, maxEntries, other, key))
  {
    StoreRecalls(backend, maxEntries, ops, key, now);
    StoreRecalls(backend, maxEntries, other, key, now);
    RecallOfWrites(backend, ops, key, now);
    RecallOfWrites(backend, other, key, now);
    hide Read, After, Recall, Evicted;
  }

  function WithoutCleanups(ops: seq<Op>): seq<Op> {
    if ops == [] then []
    else
      WithoutCleanups(ops[..|ops| - 1]) + if ops[|ops| - 1].Cleanup? then [] else [ops[|ops| - 1]]
  }

  lemma WithoutCleanupsLast(ops: seq<Op>)
    requires ops != []
    ensures var before, last := WithoutCleanups(ops[..|ops| - 1]), ops[|ops| - 1];
            if last.Cleanup? then WithoutCleanups(ops) == before
            else WithoutCleanups(ops) != [] && WithoutCleanups(ops)[..|WithoutCleanups(ops)| - 1] == before
                 && WithoutCleanups(ops)[|WithoutCleanups(ops)| - 1] == last
  {}

  lemma {:induction false} SameWrites(ops: seq<Op>)
    ensures Writes(WithoutCleanups(ops)) == Writes(ops)
  {
    if ops != [] {
      SameWrites(ops[..|ops| - 1]);
      WithoutCleanupsLast(ops);
      hide WithoutCleanups;
    }
  }

  lemma {:induction false} StillNotAfter(ops: seq<Op>, now: int)
    requires NotAfter(ops, now)
    ensures NotAfter(WithoutCleanups(ops), now)
  {
    if ops != [] {
      StillNotAfter(ops[..|ops| - 1], now);
    }
  }

  /** Every row of `some` is one of `rows`. */
  predicate Within(some: Rows, rows: Rows) { forall k :: k in some ==> k in rows && rows[k] == some[k] }

  lemma NextWithin(backend: Backend, maxEntries: nat, some: Rows, rows: Rows, op: Op)
    requires Within(some, rows) && !(backend == Mock && Overflows(rows, op, maxEntries))
    ensures !(backend == Mock && Overflows(some, op, maxEntries))
    ensures Within(Next(backend, maxEntries, some, op), Next(backend, maxEntries, rows, op))
  {
    hide Clears, Alive;
    if op.Set? { FewerRows(some[op.key := op.row], rows[op.key := op.row]); }
  }

  lemma LiveWithin(backend: Backend, some: Rows, rows: Rows, now: int)
    requires Within(some, rows)
    ensures Within(Live(backend, some, now), rows)
  {}

  /** Clean-ups only make tables smaller, so they never cause an overflow. */
  lemma {:induction false} CleanupsShrink(backend: Backend, maxEntries: nat, ops: seq<Op>)
    requires NeverOverflows(backend, maxEntries, WithoutCleanups(ops))
    ensures NeverOverflows(backend, maxEntries, ops)
    ensures Within(After(backend, maxEntries, ops), After(backend, maxEntries, WithoutCleanups(ops)))
  {
    if ops != [] {
      var before, last := ops[..|ops| - 1], ops[|ops| - 1];
      WithoutCleanupsLast(ops);
      CleanupsShrink(backend, maxEntries, before);
      var some, rows := After(backend, maxEntries, before), After(backend, maxEntries, WithoutCleanups(before));
      if last.Cleanup? {
        LiveWithin(backend, some, rows, last.now);
      } else {
        NextWithin(backend, maxEntries, some, rows, last);
      }
      hide WithoutCleanups, Within, Overflows, Live;
    }
  }

  /** Running `cleanup_expired` at any moments changes no later read, unless the mock would overflow without it. */
  lemma CleanupUnobservable(backend: Backend, maxEntries: nat, ops: seq<Op>, key: string, now: int)
    requires NotAfter(ops, now) && NeverOverflows(backend, maxEntries, WithoutCleanups(ops))
    ensures Read(backend, After(backend, maxEntries, ops), key, now)
         == Read(backend, After(backend, maxEntries, WithoutCleanups(ops)), key, now)
  {
    SameWrites(ops);
    StillNotAfter(ops, now);
    CleanupsShrink(backend, maxEntries, ops);
    NeverEvicted(backend, maxEntries, ops, key);
    NeverEvicted(backend, maxEntries, WithoutCleanups(ops), key);
    CleanupObservableExactly(backend, maxEntries, ops, WithoutCleanups(ops), key, now);
  }

  // ---- the mock's capacity ----

  /** Each overflowing set of the history evicted as the mock does. */
  predicate Legal(maxEntries: nat, ops: seq<Op>) {
    ops == [] || (
      var before := ops[..|ops| - 1];
      Legal(maxEntries, before) && Enabled(Mock, maxEntries, After(Mock, maxEntries, before), ops[|ops| - 1]))
  }

  /** The mock never holds more than its limit, after any history; the configuration allows no limit below 1000. */
  lemma {:induction false} Capacity(maxEntries: nat, ops: seq<Op>)
    requires maxEntries >= 1000 && Legal(maxEntries, ops)
    ensures |After(Mock, maxEntries, ops)| <= maxEntries
  {
    if ops != [] {
      var before := ops[..|ops| - 1];
      Capacity(maxEntries, before);
      StepFits(maxEntries, After(Mock, maxEntries, before), ops[|ops| - 1]);
      hide Next, Enabled;
    }
  }

  lemma StepFits(maxEntries: nat, rows: Rows, op: Op)
    requires maxEntries >= 1000 && |rows| <= maxEntries && Enabled(Mock, maxEntries, rows, op)
    ensures |Next(Mock, maxEntries, rows, op)| <= maxEntries
  {
    hide Clears, Alive;
    if op.Set? {
      SetFits(maxEntries, rows, op);
    } else {
      FewerRows(Next(Mock, maxEntries, rows, op), rows);
    }
  }

  lemma SetFits(maxEntries: nat, rows: Rows, op: Op)
    requires op.Set? && maxEntries >= 1000 && |rows| <= maxEntries && Enabled(Mock, maxEntries, rows, op)
    ensures |Next(Mock, maxEntries, rows, op)| <= maxEntries
  {
    var filled := rows[op.key := op.row];
    assert filled.Keys == rows.Keys + {op.key};
    assert |filled| <= maxEntries + 1;
    if Overflows(rows, op, maxEntries) {
      assert op.evicted <= filled.Keys && |op.evicted| == |filled| / 10 >= 1;
      hide Oldest;
      RemovedCount(filled, op.evicted);
    }
  }

  lemma FewerRows(some: Rows, rows: Rows)
    requires some.Keys <= rows.Keys
    ensures |some| <= |rows|
  {
    SubsetSize(some.Keys, rows.Keys);
  }

  lemma SubsetSize(a: set<string>, b: set<string>)
    requires a <= b
    ensures |a| <= |b|
  {
    assert b == a + (b - a);
  }

  function DeadKeys(rows: Rows, now: int): set<string> {
    set k | k in rows && !Alive(Mock, rows[k].expires, now)
  }

  /** No read tells the two tables apart. */
  ghost predicate ReadAlike(a: Rows, b: Rows, now: int) {
    forall key :: Read(Mock, a, key, now) == Read(Mock, b, key, now)
  }

  /** Clearing away dead rows just before a set changes what is read afterwards exactly when the set would overflow and
      evict more rows than there are dead ones. */
  lemma CleanupBeforeSet(maxEntries: nat, rows: Rows, op: Op)
    requires op.Set? && |rows| <= maxEntries && Enabled(Mock, maxEntries, rows, op)
    requires Alive(Mock, op.row.expires, op.now) && DeadKeys(rows, op.now) != {}
    ensures ReadAlike(Next(Mock, maxEntries, rows, op),
                      Next(Mock, maxEntries, Next(Mock, maxEntries, rows, Cleanup(op.now)), op), op.now)
       <==> !Overflows(rows, op, maxEntries) || |op.evicted| <= |DeadKeys(rows, op.now)|
  {
    CleanFits(maxEntries, rows, op);
    var filled, tidy := rows[op.key := op.row], Live(Mock, rows, op.now)[op.key := op.row];
    if Overflows(rows, op, maxEntries) {
      assert op.key in rows ==> filled.Keys == rows.Keys;
      assert DeadKeys(filled, op.now) == DeadKeys(rows, op.now);
      hide Oldest;
      EvictedDead(filled, op.evicted, op.now);
      EvictedReads(filled, op.evicted, tidy, op.now);
    } else {
      assert ReadAlike(filled, tidy, op.now);
    }
  }

  /** Without the evicted rows a table reads like its live part exactly when only dead rows were evicted. */
  lemma EvictedReads(filled: Rows, evicted: set<string>, tidy: Rows, now: int)
    requires evicted <= filled.Keys
    requires forall key :: Read(Mock, tidy, key, now) == Read(Mock, filled, key, now)
    ensures ReadAlike(filled - evicted, tidy, now) <==> evicted <= DeadKeys(filled, now)
  {
    if evicted <= DeadKeys(filled, now) {
      forall key ensures Read(Mock, filled - evicted, key, now) == Read(Mock, tidy, key, now) {}
    } else {
      var a :| a in evicted && a !in DeadKeys(filled, now);
      assert Read(Mock, filled - evicted, a, now).None? && Read(Mock, tidy, a, now).Some?;
    }
  }

  lemma CleanFits(maxEntries: nat, rows: Rows, op: Op)
    requires op.Set? && |rows| <= maxEntries && DeadKeys(rows, op.now) != {}
    ensures Next(Mock, maxEntries, Next(Mock, maxEntries, rows, Cleanup(op.now)), op)
         == Live(Mock, rows, op.now)[op.key := op.row]
  {
    var clean := Live(Mock, rows, op.now);
    assert clean.Keys == rows.Keys - DeadKeys(rows, op.now);
    assert |clean| < |rows|;
    assert clean[op.key := op.row].Keys == clean.Keys + {op.key};
  }

  /** An eviction takes dead rows first: it takes only dead rows exactly when there are enough of them. */
  lemma EvictedDead(rows: Rows, evicted: set<string>, now: int)
    requires Oldest(rows, evicted)
    ensures evicted <= DeadKeys(rows, now) <==> |evicted| <= |DeadKeys(rows, now)|
  {
    var dead := DeadKeys(rows, now);
    if evicted <= dead {
      SubsetSize(evicted, dead);
    } else {
      var a :| a in evicted && a !in dead;
      forall b | b in dead ensures b in evicted {
        assert b in rows && !Sooner(rows[a].expires, rows[b].expires);
      }
      SubsetSize(dead + {a}, evicted);
    }
  }

  // ---- tenants that share a table ----

  predicate ColonFree(tenant: string) { ':' !in tenant }

  predicate Wildcard(c: char) { c == '%' || c == '_' }

  predicate Letter(c: char) { 'a' <= c <= 'z' || 'A' <= c <= 'Z' }

  /** Nothing in the tenant id means more than itself in a pattern. */
  predicate Plain(tenant: string) {
    forall i :: 0 <= i < |tenant| ==> !Wildcard(tenant[i]) && !Letter(tenant[i])
  }

  predicate SameButCase(a: string, b: string) {
    |a| == |b| && forall i :: 0 <= i < |a| ==> Fold(a[i]) == Fold(b[i])
  }

  lemma FirstColon(tenant: string, key: string)
    requires ColonFree(tenant)
    ensures var scoped := tenant + ":" + key;
            && scoped[|tenant|] == ':' && (forall i :: 0 <= i < |tenant| ==> scoped[i] != ':')
            && scoped[..|tenant|] == tenant && scoped[|tenant| + 1..] == key
  {}

  /** Scoped keys of two colon-free tenants never meet. */
  lemma ScopedApart(a: string, b: string, k: string, l: string)
    requires ColonFree(a) && ColonFree(b) && a + ":" + k == b + ":" + l
    ensures a == b && k == l
  {
    FirstColon(a, k);
    FirstColon(b, l);
    assert |a| == |b|;
  }

  lemma {:induction false} PercentMatchesAll(text: string)
    ensures Like("%", text)
  {
    if text != "" { PercentMatchesAll(text[1..]); }
  }

  /** Without wildcards, the pattern of a tenant matches the texts that start with its prefix in any case. */
  lemma {:induction false} LikeWildcardFree(tenant: string, text: string)
    requires forall i :: 0 <= i < |tenant| ==> !Wildcard(tenant[i])
    ensures Like(tenant + ":" + "%", text) <==>
            |tenant| < |text| && SameButCase(tenant, text[..|tenant|]) && text[|tenant|] == ':'
  {
    var pattern := tenant + ":" + "%";
    if tenant == "" {
      assert pattern == ":%" && pattern[1..] == "%";
      if text != "" { PercentMatchesAll(text[1..]); }
    } else if text != "" {
      assert pattern[1..] == tenant[1..] + ":" + "%" && pattern[0] == tenant[0];
      LikeWildcardFree(tenant[1..], text[1..]);
      if |tenant| < |text| {
        assert text[1..][..|tenant| - 1] == text[..|tenant|][1..];
        SameButCaseFirst(tenant, text[..|tenant|]);
      }
    }
  }

  lemma SameButCaseFirst(a: string, b: string)
    requires a != "" && |a| == |b|
    ensures SameButCase(a, b) <==> Fold(a[0]) == Fold(b[0]) && SameButCase(a[1..], b[1..])
  {
    if SameButCase(a[1..], b[1..]) && Fold(a[0]) == Fold(b[0]) {
      forall i | 0 <= i < |a| ensures Fold(a[i]) == Fold(b[i]) {
        if i > 0 { assert a[1..][i - 1] == a[i] && b[1..][i - 1] == b[i]; }
      }
    }
  }

  /** Among tenants without wildcards, clearing one clears exactly those whose ids differ in letter case only. */
  lemma ClearTouches(a: string, b: string, key: string)
    requires ColonFree(a) && ColonFree(b) && forall i :: 0 <= i < |a| ==> !Wildcard(a[i])
    ensures Clears(Sqlite, a, b + ":" + key) <==> SameButCase(a, b)
  {
    var text := b + ":" + key;
    assert Prefix(Sqlite, a) + "%" == a + ":" + "%";
    LikeWildcardFree(a, text);
    FirstColon(b, key);
    if |a| < |text| && SameButCase(a, text[..|a|]) && text[|a|] == ':' {
      FoldedColon(a, text[..|a|]);
      assert |a| == |b|;
    }
    if SameButCase(a, b) { assert text[..|a|] == b; }
  }

  lemma FoldedColon(a: string, b: string)
    requires ColonFree(a) && SameButCase(a, b)
    ensures ColonFree(b)
  {
    forall i | 0 <= i < |b| ensures b[i] != ':' {
      assert Fold(a[i]) == Fold(b[i]);
    }
  }

  /** A character that `c` matches in a pattern, other than `c`, if there is one. */
  function Variant(c: char): char {
    if Wildcard(c) then 'x' else if 'a' <= c <= 'z' then c - 'a' + 'A' else if 'A' <= c <= 'Z' then c - 'A' + 'a' else c
  }

  lemma {:induction false} LikeVariant(a: string, b: string, key: string)
    requires |a| == |b| && forall i :: 0 <= i < |a| ==> b[i] == a[i] || b[i] == Variant(a[i])
    ensures Like(a + ":" + "%", b + ":" + key)
  {
    var pattern, text := a + ":" + "%", b + ":" + key;
    if a == "" {
      assert pattern == ":%" && pattern[1..] == "%";
      PercentMatchesAll(text[1..]);
    } else {
      assert pattern[1..] == a[1..] + ":" + "%" && text[1..] == b[1..] + ":" + key;
      LikeVariant(a[1..], b[1..], key);
      assert b[0] == a[0] || b[0] == Variant(a[0]);
    }
  }

  /** An operation that a tenant's cache performs on the shared table. */
  predicate OperationOf(tenant: string, op: Op) {
    match op
    case Get(key, _) => Prefix(Sqlite, tenant) <= key
    case Set(key, _, _, _) => Prefix(Sqlite, tenant) <= key
    case Delete(key) => Prefix(Sqlite, tenant) <= key
    case Clear(cleared) => cleared == tenant
    case Cleanup(_) => true
  }

  predicate Undisturbed(tenant: string, rows: Rows, op: Op, key: string, now: int) {
    Read(Sqlite, Next(Sqlite, 0, rows, op), tenant + ":" + key, now) == Read(Sqlite, rows, tenant + ":" + key, now)
  }

  /** No operation of tenant `a` changes a later read of any other colon-free tenant. */
  ghost predicate Isolated(a: string) {
    forall b: string, rows: Rows, op: Op, key: string, now: int ::
      ColonFree(b) && b != a && OperationOf(a, op) && NotAfter([op], now) ==> Undisturbed(b, rows, op, key, now)
  }

  lemma OperationUndisturbing(a: string, b: string, rows: Rows, op: Op, key: string, now: int)
    requires ColonFree(a) && ColonFree(b) && b != a && OperationOf(a, op) && NotAfter([op], now)
    requires op.Clear? ==> !Clears(Sqlite, a, b + ":" + key)
    ensures Undisturbed(b, rows, op, key, now)
  {
    NextRecalls(Sqlite, 0, rows, op, b + ":" + key, now);
    if op.Get? || op.Set? || op.Delete? {
      var rest := op.key[|a| + 1..];
      assert op.key == a + ":" + rest;
      if op.key == b + ":" + key { ScopedApart(a, b, rest, key); }
    }
    hide Next, Clears, Read;
  }

  /** Tenant isolation in a shared SQLite table holds exactly for tenant ids with no ASCII letter and no wildcard: the
      pattern that clears a tenant ignores case and does not escape `_` and `%`. */
  lemma IsolatedExactly(a: string)
    requires ColonFree(a)
    ensures Isolated(a) <==> Plain(a)
  {
    if Plain(a) {
      forall b: string, rows: Rows, op: Op, key: string, now: int
        | ColonFree(b) && b != a && OperationOf(a, op) && NotAfter([op], now)
        ensures Undisturbed(b, rows, op, key, now)
      {
        PlainClears(a, b, key);
        OperationUndisturbing(a, b, rows, op, key, now);
      }
    } else {
      NotIsolated(a);
    }
  }

  lemma PlainClears(a: string, b: string, key: string)
    requires ColonFree(a) && ColonFree(b) && Plain(a) && a != b
    ensures !Clears(Sqlite, a, b + ":" + key)
  {
    ClearTouches(a, b, key);
    if SameButCase(a, b) {
      forall i | 0 <= i < |a| ensures a[i] == b[i] {
        assert Fold(a[i]) == Fold(b[i]);
      }
    }
  }

  lemma NotIsolated(a: string)
    requires ColonFree(a) && !Plain(a)
    ensures !Isolated(a)
  {
    var i :| 0 <= i < |a| && (Wildcard(a[i]) || Letter(a[i]));
    var b := a[i := Variant(a[i])];
    assert b[i] != a[i];
    LikeVariant(a, b, "k");
    var scoped := b + ":" + "k";
    assert Clears(Sqlite, a, scoped) by { assert Prefix(Sqlite, a) + "%" == a + ":" + "%"; }
    hide Clears, Like;
    var rows: Rows := map[scoped := Row("v", None)];
    assert !Undisturbed(b, rows, Op.Clear(a), "k", 0) by {
      assert Read(Sqlite, rows, scoped, 0) == Some("v");
      assert scoped !in Next(Sqlite, 0, rows, Op.Clear(a));
    }
    assert ColonFree(b) && OperationOf(a, Op.Clear(a)) && NotAfter([Op.Clear(a)], 0);
  }

  /** The mock compares the prefix exactly, so there every colon-free tenant is safe from every other. */
  lemma MockClearsExactly(a: string, b: string, key: string)
    requires ColonFree(a) && ColonFree(b)
    ensures Clears(Mock, a, Prefix(Mock, b) + key) <==> a == b
  {
    var text := Prefix(Mock, b) + key;
    assert text == "tenant:" + (b + ":" + key);
    if Clears(Mock, a, text) {
      var rest := text[|Prefix(Mock, a)|..];
      assert text == Prefix(Mock, a) + rest == "tenant:" + (a + ":" + rest);
      assert (b + ":" + key) == text[7..] == a + ":" + rest;
      ScopedApart(a, b, rest, key);
    }
  }

  // ---- what a caller sees, without the history functions ----

  /** A value is read back until it expires: a SQLite row up to but not at its moment of expiry, a row of the mock at that
      moment too; without a lifetime never in SQLite, after 36500 days in the mock. */
  lemma ReadAfterSet(backend: Backend, maxEntries: nat, ops: seq<Op>, key: string, value: string, ttl: Option<int>,
                     jittered: int, begin: int, now: int)
    requires NotAfter(ops, now) && begin <= now
    ensures var op := Op.Set(key, Row(value, Expiry(backend, ttl, jittered, begin)), begin, {});
            var lasting := ttl.None? || ttl.value == 0;
            Read(backend, After(backend, maxEntries, ops + [op]), key, now) ==
            match backend
            case Sqlite => if lasting || now < begin + jittered then Some(value) else None
            case Mock => if now <= begin + (if lasting then 3_153_600_000_000_000 else jittered) then Some(value) else None
  {
    var op := Op.Set(key, Row(value, Expiry(backend, ttl, jittered, begin)), begin, {});
    assert (ops + [op])[..|ops|] == ops;
    NextRecalls(backend, maxEntries, After(backend, maxEntries, ops), op, key, now);
    hide Next, Clears, Overflows;
  }

  /** A read deletes a dead row of the mock, and nothing else; it deletes nothing from SQLite. */
  lemma ReadDeletesDead(backend: Backend, maxEntries: nat, rows: Rows, key: string, other: string, now: int)
    ensures var after := Next(backend, maxEntries, rows, Op.Get(key, now));
            && (backend == Sqlite ==> after == rows)
            && (backend == Mock ==> (key in after <==> Read(Mock, rows, key, now).Some?))
            && (other != key ==> (other in after <==> other in rows))
            && (other in after ==> after[other] == rows[other])
  {}

  /** Clearing a tenant clears all its keys, whatever characters its id has. */
  lemma ClearsOwn(backend: Backend, tenant: string, key: string)
    ensures Clears(backend, tenant, Prefix(backend, tenant) + key)
  {
    if backend == Sqlite {
      LikeVariant(tenant, tenant, key);
      assert Prefix(Sqlite, tenant) + "%" == tenant + ":" + "%";
      assert Prefix(Sqlite, tenant) + key == tenant + ":" + key;
    }
  }

  predicate DotsAt(s: string, i: int) { 0 <= i < |s| - 1 && s[i] == '.' && s[i + 1] == '.' }

  lemma {:induction false} ContainsDots(s: string)
    ensures Contains(s, "..") <==> exists i: int :: DotsAt(s, i)
  {
    if ".." <= s {
      assert DotsAt(s, 0);
    } else if s != "" {
      ContainsDots(s[1..]);
      if i: int :| DotsAt(s[1..], i) {
        assert DotsAt(s, i + 1);
      }
      if i: int :| DotsAt(s, i) {
        assert i > 0 ==> DotsAt(s[1..], i - 1);
      }
    }
  }

  /** The keys that are accepted: 1 to 250 characters, no line break or NUL, no two dots in a row, no slash at the start. */
  lemma ValidKeyExactly(key: string)
    ensures ValidKey(key) <==>
            && 1 <= |key| <= 250
            && (forall i :: 0 <= i < |key| ==> key[i] != '\n' && key[i] != '\r' && key[i] != '\0')
            && (forall i :: !DotsAt(key, i))
            && key[0] != '/' && key[0] != '\\'
  {
    ContainsDots(key);
    hide Contains;
  }
}
