/**
 * The solver's bounded caches (seen-lru.ts, and the retry cache of solver.ts): entries
 * expire at their own deadline, and a full cache drops its least recently used entry.
 */
module Lru {
  import opened Prelude
  import opened OrderedSet

  datatype Entry<V> = Entry(deadlineMs: int, value: V)

  /** `order` runs from the least to the most recently used. */
  datatype Cache<V> = Cache(order: seq<Hash>, entries: map<Hash, Entry<V>>)

  function Empty<V>(): Cache<V> {
    Cache([], map[])
  }

  function Drop<V>(c: Cache<V>, h: Hash): Cache<V> {
    Cache(Without(c.order, h), c.entries - {h})
  }

  /** Looking a live entry up makes it the youngest; an expired one is dropped. */
  function Find<V>(c: Cache<V>, h: Hash, now: int): (Cache<V>, Option<V>) {
    if h !in c.entries then (c, None)
    else if now > c.entries[h].deadlineMs then (Drop(c, h), None)
    else (Cache(Without(c.order, h) + [h], c.entries), Some(c.entries[h].value))
  }

  function MakeRoom<V>(c: Cache<V>, maxSize: nat): Cache<V> {
    if |c.entries| >= maxSize && c.order != [] then Drop(c, c.order[0]) else c
  }

  function Put<V>(c: Cache<V>, maxSize: nat, h: Hash, e: Entry<V>): Cache<V> {
    var d := MakeRoom(Drop(c, h), maxSize);
    Cache(d.order + [h], d.entries[h := e])
  }

  function SweepThese<V>(c: Cache<V>, hashes: seq<Hash>, now: int): Cache<V> {
    if hashes == [] then c
    else
      var d := SweepThese(c, hashes[..|hashes| - 1], now);
      var h := hashes[|hashes| - 1];
      if h in d.entries && now > d.entries[h].deadlineMs then Drop(d, h) else d
  }

  function Sweep<V>(c: Cache<V>, now: int): Cache<V> {
    SweepThese(c, c.order, now)
  }

  ghost predicate Wf<V>(c: Cache<V>) {
    Distinct(c.order) && forall h :: h in c.order <==> h in c.entries
  }

  lemma DropTakesOne<V>(c: Cache<V>, h: Hash)
    requires h in c.entries
    ensures |Drop(c, h).entries| == |c.entries| - 1
  {
    assert (c.entries - {h}).Keys == c.entries.Keys - {h};
    assert |(c.entries - {h}).Keys| == |c.entries - {h}|;
  }

  lemma DropWf<V>(c: Cache<V>, h: Hash)
    requires Wf(c)
    ensures Wf(Drop(c, h))
  {
    hide Without, Distinct;
    WithoutDistinct(c.order, h);
  }

  /** A lookup changes what is stored only by forgetting an expired entry. */
  lemma FindEffect<V>(c: Cache<V>, h: Hash, now: int)
    requires Wf(c)
    ensures var (d, r) := Find(c, h, now);
      && Wf(d) && (r.Some? <==> h in c.entries && now <= c.entries[h].deadlineMs)
      && (r.Some? ==> r.value == c.entries[h].value)
      && d.entries == if h in c.entries && r.None? then c.entries - {h} else c.entries
  {
    hide Without, Distinct;
    DropWf(c, h);
    WithoutDistinct(c.order, h);
    DistinctSnoc(Without(c.order, h), h);
  }

  /** A live lookup and a store make their hash the most recently used, and leave the others in their order. */
  lemma UseMakesYoungest<V>(c: Cache<V>, maxSize: nat, h: Hash, e: Entry<V>, now: int)
    ensures var (d, r) := Find(c, h, now);
      && (r.Some? ==> d.order == Without(c.order, h) + [h])
      && (r.None? && h !in c.entries ==> d == c)
      && (r.None? && h in c.entries ==> d.order == Without(c.order, h))
    ensures var p, others := Put(c, maxSize, h, e), Without(c.order, h);
      p.order == others + [h] || (others != [] && p.order == Without(others, others[0]) + [h] && |c.entries - {h}| >= maxSize)
  {
    hide Without;
  }

  lemma DroppedEntries<V>(c: Cache<V>, h: Hash)
    ensures Drop(c, h).entries == c.entries - {h}
  {
  }

  lemma RoomEffect<V>(c: Cache<V>, maxSize: nat)
    requires Wf(c)
    ensures var m := MakeRoom(c, maxSize);
      && Wf(m) && m.entries.Keys <= c.entries.Keys
      && m.entries == (if |c.entries| >= maxSize && c.order != [] then c.entries - {c.order[0]} else c.entries)
      && (|c.entries| <= Max(1, maxSize) ==> |m.entries| < Max(1, maxSize) || m.entries == map[])
  {
    if c.order != [] {
      assert c.order[0] in c.order;
      DropWf(c, c.order[0]);
      Shrinks(c.entries, c.order[0]);
    } else {
      assert c.entries.Keys == {};
    }
    hide Distinct, Without;
  }

  lemma AppendWf<V>(c: Cache<V>, h: Hash, e: Entry<V>)
    requires Wf(c) && h !in c.entries
    ensures Wf(Cache(c.order + [h], c.entries[h := e]))
  {
    hide Distinct;
    DistinctSnoc(c.order, h);
  }

  /** A full cache gives up exactly its least recently used entry. */
  lemma PutEffect<V>(c: Cache<V>, maxSize: nat, h: Hash, e: Entry<V>)
    requires Wf(c)
    ensures var d := Drop(c, h); var p := Put(c, maxSize, h, e);
      && Wf(p)
      && p.entries == (if |d.entries| >= maxSize && d.order != [] then d.entries - {d.order[0]} else d.entries)[h := e]
  {
    hide Wf, MakeRoom, Drop;
    var d := Drop(c, h);
    DropWf(c, h);
    DroppedEntries(c, h);
    RoomEffect(d, maxSize);
    AppendWf(MakeRoom(d, maxSize), h, e);
  }

  /** And never grows past its size. */
  lemma PutBounded<V>(c: Cache<V>, maxSize: nat, h: Hash, e: Entry<V>)
    requires Wf(c) && |c.entries| <= Max(1, maxSize)
    ensures |Put(c, maxSize, h, e).entries| <= Max(1, maxSize)
  {
    var d := Drop(c, h);
    DropWf(c, h);
    Shrinks(c.entries, h);
    RoomEffect(d, maxSize);
    Grows(MakeRoom(d, maxSize).entries, h, e);
    hide Wf, MakeRoom, Without;
  }

  lemma Shrinks<V>(m: map<Hash, Entry<V>>, h: Hash)
    ensures |m - {h}| == |m| - if h in m then 1 else 0
  {
    assert (m - {h}).Keys == m.Keys - {h};
  }

  lemma Grows<V>(m: map<Hash, Entry<V>>, h: Hash, e: Entry<V>)
    ensures |m[h := e]| == |m| + if h in m then 0 else 1
  {
    assert m[h := e].Keys == m.Keys + {h};
  }

  lemma {:induction false} SweepTheseEffect<V>(c: Cache<V>, hashes: seq<Hash>, now: int)
    requires Wf(c)
    ensures var d := SweepThese(c, hashes, now);
      && Wf(d)
      && forall h :: (h in d.entries <==> h in c.entries && !(h in hashes && now > c.entries[h].deadlineMs))
                     && (h in d.entries ==> d.entries[h] == c.entries[h])
  {
    if hashes != [] {
      var m := |hashes| - 1;
      SweepTheseEffect(c, hashes[..m], now);
      DropWf(SweepThese(c, hashes[..m], now), hashes[m]);
      assert hashes == hashes[..m] + [hashes[m]];
      hide Wf;
    }
  }

  /** A sweep removes exactly the expired entries. */
  lemma SweepEffect<V>(c: Cache<V>, now: int)
    requires Wf(c)
    ensures var d := Sweep(c, now);
      && Wf(d)
      && forall h :: (h in d.entries <==> h in c.entries && now <= c.entries[h].deadlineMs)
                     && (h in d.entries ==> d.entries[h] == c.entries[h])
  {
    hide SweepThese;
    SweepTheseEffect(c, c.order, now);
  }

  /** With room for every hash that can occur, nothing is ever evicted for space. */
  lemma PutWithRoom<V>(c: Cache<V>, maxSize: nat, h: Hash, e: Entry<V>, universe: set<Hash>)
    requires Wf(c) && c.entries.Keys <= universe && h in universe && |universe| <= maxSize
    ensures var d := Put(c, maxSize, h, e); Wf(d) && d.entries == c.entries[h := e] && d.entries.Keys <= universe
  {
    PutEffect(c, maxSize, h, e);
    var rest := c.entries - {h};
    SubsetSize(rest.Keys, universe - {h});
    assert Drop(c, h).entries == rest && |rest| < maxSize;
    assert rest[h := e] == c.entries[h := e];
    hide Put, Drop, Wf;
  }

  lemma {:induction false} SubsetSize(a: set<Hash>, b: set<Hash>)
    requires a <= b
    ensures |a| <= |b|
  {
    if a != {} {
      var x :| x in a;
      SubsetSize(a - {x}, b - {x});
    }
  }
}
