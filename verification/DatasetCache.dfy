/** The per-connection cache of open datasets: unambiguous keys, and a get-or-open with an unlocked gap. */
module DatasetCache {
  import opened Bytes
  import opened Decimals

  const COLON: byte := 0x3A
  const SEMICOLON: byte := 0x3B
  const PATH_KEY: Text := [0x70, 0x61, 0x74, 0x68, 0x7C] // "path|"

  // Keys.

  /** A part carries its length, so it can be followed by anything. */
  function Part(value: Text): Text {
    Printed(|value|) + [COLON] + value + [SEMICOLON]
  }

  function Options(keys: seq<Text>, values: seq<Text>): Text
    requires |keys| == |values|
  {
    if keys == [] then [] else Part(keys[0]) + Part(values[0]) + Options(keys[1..], values[1..])
  }

  function Key(path: Text, keys: seq<Text>, values: seq<Text>): Option<Text> {
    if |keys| != |values| then None
    else Some(PATH_KEY + Part(path) + Part(Printed(|keys|)) + Options(keys, values))
  }

  method BuildKey(path: Text, keys: seq<Text>, values: seq<Text>) returns (key: Option<Text>)
    ensures key == Key(path, keys, values)
  {
    if |keys| != |values| {
      return None;
    }
    var text := PATH_KEY + Part(path) + Part(Printed(|keys|));
    ghost var head := text;
    assert keys[0..] == keys && values[0..] == values;
    for i := 0 to |keys|
      invariant text + Options(keys[i..], values[i..]) == head + Options(keys, values)
    {
      OptionsStep(keys, values, i, text);
      text := text + Part(keys[i]);
      text := text + Part(values[i]);
    }
    assert keys[|keys|..] == [] && text + [] == text;
    return Some(text);
  }

  lemma OptionsStep(keys: seq<Text>, values: seq<Text>, i: nat, text: Text)
    requires |keys| == |values| && i < |keys|
    ensures text + Options(keys[i..], values[i..]) == text + Part(keys[i]) + Part(values[i])
        + Options(keys[i + 1..], values[i + 1..])
  {
    assert keys[i..][1..] == keys[i + 1..] && values[i..][1..] == values[i + 1..];
    var a, b, c := Part(keys[i]), Part(values[i]), Options(keys[i + 1..], values[i + 1..]);
    assert text + (a + b + c) == text + a + b + c;
  }

  /** A part at the front of a text is read in only one way. */
  lemma PartUnique(v: Text, w: Text, r: Text, s: Text)
    requires Part(v) + r == Part(w) + s
    ensures v == w && r == s
  {
    var n, m := Printed(|v|), Printed(|w|);
    var left, right := v + [SEMICOLON] + r, w + [SEMICOLON] + s;
    assert Part(v) + r == n + [COLON] + left;
    assert Part(w) + s == m + [COLON] + right;
    NoColon(n);
    NoColon(m);
    FindAfter(n, COLON, left);
    FindAfter(m, COLON, right);
    var whole := n + [COLON] + left;
    assert whole[..|n|] == n && whole[..|m|] == m;
    ValuePrinted(|v|);
    ValuePrinted(|w|);
    assert whole[|n| + 1..] == left && whole[|m| + 1..] == right;
    assert left[..|v|] == v && right[..|w|] == w;
    assert left[|v| + 1..] == r && right[|w| + 1..] == s;
  }

  lemma NoColon(s: Text)
    requires AllDigits(s)
    ensures COLON !in s
  {
  }

  lemma {:induction false} OptionsUnique(k: seq<Text>, v: seq<Text>, k': seq<Text>, v': seq<Text>)
    requires |k| == |v| == |k'| == |v'| && Options(k, v) == Options(k', v')
    ensures k == k' && v == v'
    decreases |k|
  {
    if k != [] {
      var rest, rest' := Options(k[1..], v[1..]), Options(k'[1..], v'[1..]);
      assert Part(k[0]) + Part(v[0]) + rest == Part(k[0]) + (Part(v[0]) + rest);
      assert Part(k'[0]) + Part(v'[0]) + rest' == Part(k'[0]) + (Part(v'[0]) + rest');
      PartUnique(k[0], k'[0], Part(v[0]) + rest, Part(v'[0]) + rest');
      PartUnique(v[0], v'[0], rest, rest');
      OptionsUnique(k[1..], v[1..], k'[1..], v'[1..]);
      assert k == [k[0]] + k[1..] && k' == [k'[0]] + k'[1..] && v == [v[0]] + v[1..] && v' == [v'[0]] + v'[1..];
    }
  }

  lemma Regroup(a: Text, b: Text, c: Text)
    ensures PATH_KEY + a + b + c == PATH_KEY + (a + (b + c))
  {
  }

  /** Different paths or options never share a key. */
  lemma KeysAreInjective(path: Text, k: seq<Text>, v: seq<Text>, path': Text, k': seq<Text>, v': seq<Text>)
    requires |k| == |v| && |k'| == |v'|
    ensures Key(path, k, v) == Key(path', k', v') <==> path == path' && k == k' && v == v'
  {
    if Key(path, k, v) == Key(path', k', v') {
      var count, count' := Printed(|k|), Printed(|k'|);
      var tail, tail' := Options(k, v), Options(k', v');
      var rest, rest' := Part(path) + (Part(count) + tail), Part(path') + (Part(count') + tail');
      Regroup(Part(path), Part(count), tail);
      Regroup(Part(path'), Part(count'), tail');
      assert (PATH_KEY + rest)[|PATH_KEY|..] == rest && (PATH_KEY + rest')[|PATH_KEY|..] == rest';
      PartUnique(path, path', Part(count) + tail, Part(count') + tail');
      PartUnique(count, count', tail, tail');
      ValuePrinted(|k|);
      ValuePrinted(|k'|);
      OptionsUnique(k, v, k', v');
    }
  }

  // The cache.

  /** An open dataset handle and the dataset version it shows. */
  datatype Entry = Entry(handle: nat, version: nat)

  class Cache {
    var entries: map<Text, Entry>
    var expireAfterQuery: set<Text>
    var hits: nat
    var misses: nat

    constructor ()
      ensures entries == map[] && expireAfterQuery == {} && hits == misses == 0
    {
      entries, expireAfterQuery, hits, misses := map[], {}, 0, 0;
    }

    method Get(key: Text) returns (entry: Option<Entry>)
      modifies this`hits, this`misses
      ensures entry == if key in entries then Some(entries[key]) else None
      ensures hits + misses == old(hits + misses) + 1 && (entry.Some? <==> hits == old(hits) + 1)
    {
      if key !in entries {
        misses := misses + 1;
        return None;
      }
      hits := hits + 1;
      return Some(entries[key]);
    }

    /** The first entry put under a key wins: every later put gets it back. */
    method PutOrGetExisting(key: Text, entry: Entry) returns (kept: Entry)
      modifies this`entries
      ensures key in entries && entries[key] == kept
      ensures key in old(entries) ==> entries == old(entries)
      ensures key !in old(entries) ==> kept == entry && entries == old(entries)[key := entry]
    {
      if key in entries {
        return entries[key];
      }
      entries := entries[key := entry];
      kept := entry;
    }

    method Invalidate(key: Text)
      modifies this`entries
      ensures entries == old(entries) - {key}
    {
      entries := entries - {key};
    }

    method ExpireAfterQuery(key: Text)
      modifies this`expireAfterQuery
      ensures expireAfterQuery == old(expireAfterQuery) + {key}
    {
      expireAfterQuery := expireAfterQuery + {key};
    }

    /** Exactly the keys marked during the query are dropped. */
    method QueryEnd()
      modifies this`entries, this`expireAfterQuery
      ensures entries == old(entries) - old(expireAfterQuery) && expireAfterQuery == {}
    {
      var todo := expireAfterQuery;
      while todo != {}
        invariant expireAfterQuery == old(expireAfterQuery) && todo <= expireAfterQuery
        invariant entries == old(entries) - (expireAfterQuery - todo)
        decreases |todo|
      {
        var key :| key in todo;
        todo := todo - {key};
        entries := entries - {key};
      }
      assert expireAfterQuery - todo == expireAfterQuery;
      expireAfterQuery := {};
    }
  }

  // Get-or-open under concurrency: the dataset is opened between the two locked calls.

  datatype Flight = Flight(key: Text, entry: Entry)

  /** `latest` is the dataset version per key, `floor` the version at its last invalidation. */
  datatype World = World(entries: map<Text, Entry>, expiring: set<Text>, flights: map<nat, Flight>, latest: map<Text,
    nat>,
                         floor: map<Text, nat>)

  datatype Op =
    | Open(id: nat, key: Text, handle: nat) // after a miss
    | Put(id: nat)
    | Commit(key: Text)
    | InvalidateKey(key: Text)
    | Expire(key: Text)
    | EndQuery

  function Version(m: map<Text, nat>, key: Text): nat {
    if key in m then m[key] else 0
  }

  predicate Enabled(w: World, op: Op) {
    match op
    case Open(id, key, _) => id !in w.flights && key !in w.entries
    case Put(id) => id in w.flights
    case _ => true
  }

  function Next(w: World, op: Op): World
    requires Enabled(w, op)
  {
    match op
    case Open(id, key, handle) => w.(flights := w.flights[id := Flight(key, Entry(handle, Version(w.latest, key)))])
    case Put(id) =>
      var f := w.flights[id];
      w.(flights := w.flights - {id}, entries := if f.key in w.entries then w.entries else w.entries[f.key := f.entry])
    case Commit(key) => w.(latest := w.latest[key := Version(w.latest, key) + 1])
    case InvalidateKey(key) => w.(entries := w.entries - {key}, floor := w.floor[key := Version(w.latest, key)])
    case Expire(key) => w.(expiring := w.expiring + {key})
    case EndQuery => w.(entries := w.entries - w.expiring, expiring := {})
  }

  predicate Legal(w: World, ops: seq<Op>)
    decreases |ops|
  {
    ops == [] || (Enabled(w, ops[0]) && Legal(Next(w, ops[0]), ops[1..]))
  }

  function Run(w: World, ops: seq<Op>): World
    requires Legal(w, ops)
    decreases |ops|
  {
    if ops == [] then w else Run(Next(w, ops[0]), ops[1..])
  }

  /** One step by the cache's own methods. */
  method Perform(cache: Cache, w: World, op: Op)
    requires Enabled(w, op) && cache.entries == w.entries && cache.expireAfterQuery == w.expiring
    modifies cache
    ensures cache.entries == Next(w, op).entries && cache.expireAfterQuery == Next(w, op).expiring
  {
    match op
    case Open(_, key, _) =>
      var missing := cache.Get(key);
      assert missing.None?;
    case Put(id) =>
      var kept := cache.PutOrGetExisting(w.flights[id].key, w.flights[id].entry);
    case Commit(_) =>
    case InvalidateKey(key) => cache.Invalidate(key);
    case Expire(key) => cache.ExpireAfterQuery(key);
    case EndQuery => cache.QueryEnd();
  }

  /** Any interleaving of lookups, puts, commits, invalidations and query ends: the cache holds what the run says. */
  method Drive(cache: Cache, w: World, ops: seq<Op>)
    requires Legal(w, ops) && cache.entries == w.entries && cache.expireAfterQuery == w.expiring
    modifies cache
    ensures cache.entries == Run(w, ops).entries && cache.expireAfterQuery == Run(w, ops).expiring
  {
    var now := w;
    for i := 0 to |ops|
      invariant Legal(now, ops[i..]) && Run(now, ops[i..]) == Run(w, ops)
      invariant cache.entries == now.entries && cache.expireAfterQuery == now.expiring
    {
      assert ops[i..][1..] == ops[i + 1..];
      Perform(cache, now, ops[i]);
      now := Next(now, ops[i]);
    }
  }

  // Staleness.

  /** No cached entry shows a version older than the last invalidation of its key. */
  ghost predicate NothingStale(w: World) {
    forall key | key in w.entries :: w.entries[key].version >= Version(w.floor, key)
  }

  /** Opened handles that have not been put yet are as new as the last invalidation. */
  ghost predicate FlightsFresh(w: World) {
    forall id | id in w.flights :: w.flights[id].entry.version >= Version(w.floor, w.flights[id].key)
  }

  ghost predicate Bounded(w: World) {
    && (forall key :: Version(w.floor, key) <= Version(w.latest, key))
    && (forall key | key in w.entries :: w.entries[key].version <= Version(w.latest, key))
    && (forall id | id in w.flights :: w.flights[id].entry.version <= Version(w.latest, w.flights[id].key))
  }

  /** A handle for the key was opened before its last commit and has not been put yet. */
  predicate Outdated(w: World, id: nat, key: Text) {
    id in w.flights && w.flights[id].key == key && w.flights[id].entry.version < Version(w.latest, key)
  }

  /** Each invalidation finds no outdated handle in flight for its key. */
  ghost predicate Calm(w: World, ops: seq<Op>)
    requires Legal(w, ops)
    decreases |ops|
  {
    ops == [] || ((ops[0].InvalidateKey? ==> forall id :: !Outdated(w, id, ops[0].key))
      && Calm(Next(w, ops[0]), ops[1..]))
  }

  lemma CalmStep(w: World, op: Op)
    requires NothingStale(w) && FlightsFresh(w) && Bounded(w) && Enabled(w, op)
    requires op.InvalidateKey? ==> forall id :: !Outdated(w, id, op.key)
    ensures NothingStale(Next(w, op)) && FlightsFresh(Next(w, op)) && Bounded(Next(w, op))
  {
    var after := Next(w, op);
    forall key
      ensures Version(after.floor, key) <= Version(after.latest, key)
    {
      assert Version(w.floor, key) <= Version(w.latest, key);
    }
    forall id | id in after.flights
      ensures after.flights[id].entry.version >= Version(after.floor, after.flights[id].key)
    {
      if op.InvalidateKey? {
        assert !Outdated(w, id, op.key);
      }
    }
  }

  /** In every run whose invalidations find no outdated handle in flight, the cache never holds a stale entry. */
  lemma {:induction false} NeverStale(w: World, ops: seq<Op>)
    requires NothingStale(w) && FlightsFresh(w) && Bounded(w) && Legal(w, ops) && Calm(w, ops)
    ensures NothingStale(Run(w, ops)) && FlightsFresh(Run(w, ops)) && Bounded(Run(w, ops))
    decreases |ops|
  {
    if ops != [] {
      CalmStep(w, ops[0]);
      NeverStale(Next(w, ops[0]), ops[1..]);
    }
  }

  /** Whenever an invalidation finds an outdated handle in flight, putting that handle next leaves a stale entry. */
  lemma OutdatedFlightGoesStale(w: World, key: Text, id: nat)
    requires Outdated(w, id, key)
    ensures Enabled(Next(w, InvalidateKey(key)), Put(id))
    ensures !NothingStale(Next(Next(w, InvalidateKey(key)), Put(id)))
  {
    var after := Next(Next(w, InvalidateKey(key)), Put(id));
    assert key in after.entries && after.entries[key] == w.flights[id].entry
      && Version(after.floor, key) == Version(w.latest, key);
  }

  /** An invalidation is safe whatever calm steps follow if and only if it finds no outdated handle in flight. */
  lemma InvalidationIsSafeIff(w: World, key: Text)
    requires NothingStale(w) && FlightsFresh(w) && Bounded(w)
    ensures var next := Next(w, InvalidateKey(key));
            (forall ops | Legal(next, ops) && Calm(next, ops) :: NothingStale(Run(next, ops)))
              <==> forall id :: !Outdated(w, id, key)
  {
    var next := Next(w, InvalidateKey(key));
    if id :| Outdated(w, id, key) {
      OutdatedFlightGoesStale(w, key, id);
      var ops := [Put(id)];
      assert ops[1..] == [];
      var put := Next(next, ops[0]);
      assert Legal(put, ops[1..]) && Calm(put, ops[1..]) && Run(put, ops[1..]) == put;
      assert Legal(next, ops) && Calm(next, ops) && Run(next, ops) == put;
    } else {
      CalmStep(w, InvalidateKey(key));
      forall ops | Legal(next, ops) && Calm(next, ops)
        ensures NothingStale(Run(next, ops))
      {
        NeverStale(next, ops);
      }
    }
  }

  /** From an empty cache: open, commit, invalidate, put. The old handle stays in the cache. */
  lemma StalePut(key: Text)
    ensures var start := World(map[], {}, map[], map[], map[]);
            var before := [Open(0, key, 7), Commit(key)];
            && Legal(start, before) && Outdated(Run(start, before), 0, key)
            && !NothingStale(Next(Next(Run(start, before), InvalidateKey(key)), Put(0)))
  {
    var start := World(map[], {}, map[], map[], map[]);
    var before := [Open(0, key, 7), Commit(key)];
    var first := Next(start, before[0]);
    assert before[1..] == [Commit(key)] && before[1..][1..] == [];
    assert Legal(first, before[1..]) && Run(first, before[1..]) == Next(first, Commit(key));
    OutdatedFlightGoesStale(Run(start, before), key, 0);
  }
}
