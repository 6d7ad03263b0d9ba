/**
 * The mempool's intent store (store.ts): a bounded, insertion-ordered map with an index
 * by status, and its paginated listing.
 */
module Mempool {
  import opened Prelude
  import opened OrderedSet

  datatype Status = Pending | Filled | Settled | Refunded | Expired

  predicate Terminal(s: Status) {
    s in {Settled, Refunded, Expired}
  }

  datatype Record = Record(hash: Hash, deadline: int, sourceChainId: nat, createdAt: nat, status: Status)

  /** `order` and each index are insertion orders, as JavaScript's `Map` and `Set` keep them. */
  datatype Store = Store(records: map<Hash, Record>, order: seq<Hash>, byStatus: map<Status, seq<Hash>>) {
    function Index(s: Status): seq<Hash> {
      if s in byStatus then byStatus[s] else []
    }
  }

  const EMPTY := Store(map[], [], map[])

  // --- Operations --------------------------------------------------------------------

  function IndexRemove(s: Store, h: Hash, status: Status): Store {
    if status in s.byStatus then s.(byStatus := s.byStatus[status := Without(s.byStatus[status], h)]) else s
  }

  function IndexAdd(s: Store, h: Hash, status: Status): Store {
    s.(byStatus := s.byStatus[status := With(s.Index(status), h)])
  }

  function Delete(s: Store, h: Hash): Store {
    if h !in s.records then s
    else
      var t := IndexRemove(s, h, s.records[h].status);
      t.(records := t.records - {h}, order := Without(t.order, h))
  }

  /** The oldest record in a terminal status. */
  function OldestTerminal(s: Store, order: seq<Hash>): Option<Hash> {
    if order == [] then None
    else if order[0] in s.records && Terminal(s.records[order[0]].status) then Some(order[0])
    else OldestTerminal(s, order[1..])
  }

  /** Whom capacity pressure removes. */
  function Victim(s: Store): Option<Hash> {
    var terminal := OldestTerminal(s, s.order);
    if terminal.Some? then terminal
    else if s.order != [] then Some(s.order[0])
    else None
  }

  function EvictOne(s: Store): Store {
    if Victim(s).Some? then Delete(s, Victim(s).value) else s
  }

  function Insert(s: Store, h: Hash, r: Record): Store {
    IndexAdd(s.(records := s.records[h := r], order := With(s.order, h)), h, r.status)
  }

  /** `set`: re-inserting an intent makes it the youngest. */
  function Put(s: Store, maxSize: nat, h: Hash, r: Record): Store {
    var t := Delete(s, h);
    Insert(if |t.records| >= maxSize then EvictOne(t) else t, h, r)
  }

  function UpdateStatus(s: Store, h: Hash, status: Status): Option<Store> {
    if h !in s.records || Terminal(s.records[h].status) then None
    else
      var t := IndexRemove(s, h, s.records[h].status);
      Some(IndexAdd(t.(records := t.records[h := s.records[h].(status := status)]), h, status))
  }

  /** The cutoff as the code computes it. */
  predicate PastCutoff(r: Record, now: int, graceMs: nat) {
    r.deadline <= now + graceMs / 1000
  }

  function EvictThese(s: Store, hashes: seq<Hash>, now: int, graceMs: nat): Store {
    if hashes == [] then s
    else
      var t := EvictThese(s, hashes[..|hashes| - 1], now, graceMs);
      var h := hashes[|hashes| - 1];
      if h in t.records && PastCutoff(t.records[h], now, graceMs) then Delete(t, h) else t
  }

  function EvictExpired(s: Store, now: int, graceMs: nat): Store {
    EvictThese(s, s.order, now, graceMs)
  }

  // --- The index agrees with the map ---------------------------------------------------

  ghost predicate OrderInv(s: Store) {
    Distinct(s.order) && (forall h :: h in s.order <==> h in s.records)
  }

  /** A status's index holds exactly the hashes with that status, once each. */
  ghost predicate StatusInv(s: Store, st: Status) {
    Distinct(s.Index(st)) && forall h :: h in s.Index(st) <==> h in s.records && s.records[h].status == st
  }

  ghost predicate OwnHash(s: Store) {
    forall h <- s.records :: s.records[h].hash == h
  }

  ghost predicate StoreInv(s: Store) {
    OrderInv(s) && OwnHash(s) && forall st: Status :: StatusInv(s, st)
  }

  lemma DeleteKeepsStatus(s: Store, h: Hash, st: Status)
    requires StatusInv(s, st)
    ensures StatusInv(Delete(s, h), st)
  {
    hide Without, Distinct;
    WithoutDistinct(s.Index(st), h);
  }

  lemma DeletedParts(s: Store, h: Hash)
    ensures Delete(s, h).records == s.records - {h}
    ensures Delete(s, h).order == if h in s.records then Without(s.order, h) else s.order
  {
    hide Without;
  }

  lemma DeleteKeepsOrder(s: Store, h: Hash)
    requires OrderInv(s)
    ensures OrderInv(Delete(s, h))
  {
    hide Delete, Without, Distinct;
    DeletedParts(s, h);
    WithoutDistinct(s.order, h);
  }

  lemma DeleteKeepsInv(s: Store, h: Hash)
    requires StoreInv(s)
    ensures StoreInv(Delete(s, h)) && Delete(s, h).records == s.records - {h}
  {
    hide StatusInv, OrderInv, Delete;
    DeletedParts(s, h);
    DeleteKeepsOrder(s, h);
    forall st: Status ensures StatusInv(Delete(s, h), st) { DeleteKeepsStatus(s, h, st); }
  }

  lemma InsertedParts(s: Store, h: Hash, r: Record, st: Status)
    ensures Insert(s, h, r).records == s.records[h := r] && Insert(s, h, r).order == With(s.order, h)
    ensures Insert(s, h, r).Index(st) == if st == r.status then With(s.Index(st), h) else s.Index(st)
  {
    hide With;
  }

  lemma InsertKeepsStatus(s: Store, h: Hash, r: Record, st: Status)
    requires StatusInv(s, st) && h !in s.records
    ensures StatusInv(Insert(s, h, r), st)
  {
    hide Insert, With, Distinct;
    InsertedParts(s, h, r, st);
    WithDistinct(s.Index(st), h);
  }

  lemma InsertKeepsOrder(s: Store, h: Hash, r: Record)
    requires OrderInv(s)
    ensures OrderInv(Insert(s, h, r))
  {
    hide Insert, With, Distinct;
    InsertedParts(s, h, r, r.status);
    WithDistinct(s.order, h);
  }

  lemma InsertKeepsInv(s: Store, h: Hash, r: Record)
    requires StoreInv(s) && h !in s.records && r.hash == h
    ensures StoreInv(Insert(s, h, r)) && Insert(s, h, r).records == s.records[h := r]
    ensures |Insert(s, h, r).records| == |s.records| + 1
  {
    hide StatusInv, OrderInv, Insert;
    InsertedParts(s, h, r, r.status);
    InsertKeepsOrder(s, h, r);
    forall st: Status ensures StatusInv(Insert(s, h, r), st) { InsertKeepsStatus(s, h, r, st); }
    assert s.records[h := r].Keys == s.records.Keys + {h};
  }

  lemma {:induction false} OldestTerminalIs(s: Store, order: seq<Hash>)
    requires forall h <- order :: h in s.records
    ensures var v := OldestTerminal(s, order);
      && (v.Some? ==> exists i :: 0 <= i < |order| && order[i] == v.value && Terminal(s.records[v.value].status)
                                  && forall j :: 0 <= j < i ==> !Terminal(s.records[order[j]].status))
      && (v.None? ==> forall j :: 0 <= j < |order| ==> !Terminal(s.records[order[j]].status))
  {
    if order != [] && !Terminal(s.records[order[0]].status) {
      OldestTerminalIs(s, order[1..]);
      var v := OldestTerminal(s, order[1..]);
      forall j | 0 <= j < |order| && j > 0 ensures order[j] == order[1..][j - 1] { }
      if v.Some? {
        var i :| 0 <= i < |order[1..]| && order[1..][i] == v.value && forall j :: 0 <= j < i ==> !Terminal(s.records[order[1..][j]].status);
        assert order[i + 1] == v.value;
      }
    }
  }

  /** Eviction removes the oldest terminal record if there is one, and otherwise the oldest. */
  lemma EvictsOldestTerminalFirst(s: Store)
    requires StoreInv(s) && s.order != []
    ensures var v := Victim(s);
      && v.Some? && v.value in s.records && EvictOne(s).records == s.records - {v.value}
      && exists i :: 0 <= i < |s.order| && s.order[i] == v.value
           && (if exists h <- s.records :: Terminal(s.records[h].status)
               then Terminal(s.records[v.value].status) && forall j :: 0 <= j < i ==> !Terminal(s.records[s.order[j]].status)
               else i == 0)
  {
    hide Delete;
    OldestTerminalIs(s, s.order);
    DeleteKeepsInv(s, Victim(s).value);
    if OldestTerminal(s, s.order).None? {
      forall h <- s.records ensures !Terminal(s.records[h].status) {
        assert h in s.order;
      }
      assert s.order[0] == Victim(s).value;
    }
  }

  lemma MapMinus(m: map<Hash, Record>, h: Hash)
    ensures |m - {h}| == |m| - if h in m then 1 else 0
  {
    assert (m - {h}).Keys == m.Keys - {h};
  }

  /** A status changes exactly on a stored record that is pending or filled. */
  lemma UpdatesIff(s: Store, h: Hash, status: Status)
    ensures UpdateStatus(s, h, status).Some? <==> h in s.records && (s.records[h].status == Pending || s.records[h].status == Filled)
    ensures UpdateStatus(s, h, status).Some? ==>
      var t := UpdateStatus(s, h, status).value; t.records == s.records[h := s.records[h].(status := status)] && t.order == s.order
  {
    hide Without, With;
  }

  lemma DeleteTakesOne(s: Store, h: Hash)
    requires h in s.records
    ensures |Delete(s, h).records| == |s.records| - 1
  {
    MapMinus(s.records, h);
  }

  lemma PutKeepsInv(s: Store, maxSize: nat, h: Hash, r: Record)
    requires StoreInv(s) && r.hash == h && |s.records| <= Max(1, maxSize)
    ensures var t := Put(s, maxSize, h, r);
      StoreInv(t) && 1 <= |t.records| <= Max(1, maxSize) && h in t.records && t.records[h] == r
  {
    hide Delete, Insert;
    var t := Delete(s, h);
    DeleteKeepsInv(s, h);
    MapMinus(s.records, h);
    if |t.records| >= maxSize && t.order != [] {
      EvictsOldestTerminalFirst(t);
      EvictKeepsInv(t);
      MapMinus(t.records, Victim(t).value);
      InsertKeepsInv(EvictOne(t), h, r);
    } else {
      if t.order == [] { NoneStored(t); }
      InsertKeepsInv(t, h, r);
    }
  }

  /** Storing takes out the victim only if the store is full without the hash itself, keeps all else, and makes the hash the youngest. */
  lemma PutIsExact(s: Store, maxSize: nat, h: Hash, r: Record)
    requires StoreInv(s) && r.hash == h
    ensures var rest, t := Delete(s, h), Put(s, maxSize, h, r);
      && rest.records == s.records - {h}
      && t.records == (if |rest.records| >= maxSize && Victim(rest).Some? then rest.records - {Victim(rest).value} else rest.records)[h := r]
      && t.order != [] && t.order[|t.order| - 1] == h
      && (Victim(rest).None? <==> rest.records == map[])
  {
    hide Delete, Insert, EvictOne, Victim, StoreInv;
    var rest := Delete(s, h);
    DeleteKeepsInv(s, h);
    RoomMade(rest);
    InsertedExactly(rest, h, r);
    InsertedExactly(EvictOne(rest), h, r);
  }

  lemma RoomMade(s: Store)
    requires StoreInv(s)
    ensures var t := EvictOne(s);
      && StoreInv(t) && t.records == (if Victim(s).Some? then s.records - {Victim(s).value} else s.records)
      && (Victim(s).None? <==> s.records == map[])
  {
    hide Delete;
    if s.order == [] {
      NoneStored(s);
    } else {
      EvictsOldestTerminalFirst(s);
      EvictKeepsInv(s);
    }
  }

  lemma InsertedExactly(s: Store, h: Hash, r: Record)
    requires StoreInv(s) && h !in s.records && r.hash == h
    ensures var t := Insert(s, h, r); t.records == s.records[h := r] && t.order != [] && t.order[|t.order| - 1] == h
  {
    hide Insert, StatusInv, OwnHash;
    InsertKeepsInv(s, h, r);
    InsertedLast(s, h, r);
  }

  lemma InsertedLast(s: Store, h: Hash, r: Record)
    requires OrderInv(s) && h !in s.records
    ensures var t := Insert(s, h, r); t.order != [] && t.order[|t.order| - 1] == h
  {
    InsertedParts(s, h, r, r.status);
    hide Insert;
  }

  lemma NoneStored(s: Store)
    requires OrderInv(s) && s.order == []
    ensures s.records == map[]
  {
  }

  lemma EvictKeepsInv(s: Store)
    requires StoreInv(s)
    ensures StoreInv(EvictOne(s))
  {
    hide Delete, StoreInv;
    if Victim(s).Some? { DeleteKeepsInv(s, Victim(s).value); }
  }

  lemma UpdatedIndex(s: Store, h: Hash, status: Status, st: Status)
    requires UpdateStatus(s, h, status).Some?
    ensures var left := if st == s.records[h].status then Without(s.Index(st), h) else s.Index(st);
      UpdateStatus(s, h, status).value.Index(st) == if st == status then With(left, h) else left
  {
    hide With;
  }

  lemma UpdatedParts(s: Store, h: Hash, status: Status)
    ensures UpdateStatus(s, h, status).Some? <==> h in s.records && !Terminal(s.records[h].status)
    ensures UpdateStatus(s, h, status).Some? ==>
      var t := UpdateStatus(s, h, status).value;
      t.order == s.order && t.records == s.records[h := s.records[h].(status := status)]
  {
    hide With, Without;
  }

  lemma UpdateKeepsStatus(s: Store, h: Hash, status: Status, st: Status)
    requires StatusInv(s, st) && UpdateStatus(s, h, status).Some?
    ensures StatusInv(UpdateStatus(s, h, status).value, st)
  {
    hide Without, With, Distinct, UpdateStatus, Terminal;
    UpdatedParts(s, h, status);
    UpdatedIndex(s, h, status, st);
    var left := if st == s.records[h].status then Without(s.Index(st), h) else s.Index(st);
    WithoutDistinct(s.Index(st), h);
    WithDistinct(left, h);
  }

  /** A status change moves one hash between two indexes; a terminal status never changes. */
  lemma UpdateKeepsInv(s: Store, h: Hash, status: Status)
    requires StoreInv(s)
    ensures UpdateStatus(s, h, status).Some? <==> h in s.records && !Terminal(s.records[h].status)
    ensures UpdateStatus(s, h, status).Some? ==>
      var t := UpdateStatus(s, h, status).value;
      StoreInv(t) && t.order == s.order && t.records == s.records[h := s.records[h].(status := status)]
      && |t.records| == |s.records|
  {
    hide StatusInv, Distinct, UpdateStatus;
    UpdatedParts(s, h, status);
    if UpdateStatus(s, h, status).Some? {
      var t := UpdateStatus(s, h, status).value;
      assert t.records.Keys == s.records.Keys;
      forall st: Status ensures StatusInv(t, st) { UpdateKeepsStatus(s, h, status, st); }
    }
  }

  lemma {:induction false} EvictTheseKeepsInv(s: Store, hashes: seq<Hash>, now: int, graceMs: nat, h: Hash)
    requires StoreInv(s)
    ensures var t := EvictThese(s, hashes, now, graceMs);
      && StoreInv(t) && t.records.Keys <= s.records.Keys && |t.records| <= |s.records|
      && (h in t.records ==> h in s.records && t.records[h] == s.records[h])
      && (h in t.records <==> h in s.records && !(h in hashes && PastCutoff(s.records[h], now, graceMs)))
  {
    hide Delete, StoreInv, PastCutoff;
    if hashes != [] {
      var m := |hashes| - 1;
      var t := EvictThese(s, hashes[..m], now, graceMs);
      EvictTheseKeepsInv(s, hashes[..m], now, graceMs, h);
      EvictTheseKeepsInv(s, hashes[..m], now, graceMs, hashes[m]);
      assert hashes == hashes[..m] + [hashes[m]];
      DeleteKeepsInv(t, hashes[m]);
      MapMinus(t.records, hashes[m]);
    }
  }

  /** A sweep removes exactly the records past the cutoff. */
  lemma SweepIsExact(s: Store, now: int, graceMs: nat, h: Hash)
    requires StoreInv(s)
    ensures var t := EvictExpired(s, now, graceMs);
      h in t.records <==> h in s.records && !PastCutoff(s.records[h], now, graceMs)
  {
    hide EvictThese, PastCutoff;
    EvictTheseKeepsInv(s, s.order, now, graceMs, h);
  }

  /**
   * The cutoff lies before the deadline, not after it: compared with records overdue by
   * more than the grace period, the sweep also takes every record due within it.
   */
  lemma SweepIsEarly(r: Record, now: int, graceMs: nat)
    ensures PastCutoff(r, now, graceMs) && !(r.deadline + graceMs / 1000 < now)
      <==> now - graceMs / 1000 <= r.deadline <= now + graceMs / 1000
  {
  }

  // --- Whole runs ------------------------------------------------------------------------

  datatype Op =
    | Set(hash: Hash, record: Record)
    | Update(hash: Hash, status: Status)
    | Remove(hash: Hash)
    | Sweep(now: int, graceMs: nat)

  function Step(s: Store, maxSize: nat, op: Op): Store {
    match op
    case Set(h, r) => Put(s, maxSize, h, r)
    case Update(h, status) => UpdateStatus(s, h, status).UnwrapOr(s)
    case Remove(h) => Delete(s, h)
    case Sweep(now, graceMs) => EvictExpired(s, now, graceMs)
  }

  function Run(s: Store, maxSize: nat, ops: seq<Op>): Store {
    if ops == [] then s else Step(Run(s, maxSize, ops[..|ops| - 1]), maxSize, ops[|ops| - 1])
  }

  /** Records are stored under their own hash. */
  ghost predicate OwnHashes(ops: seq<Op>) {
    forall op <- ops :: op.Set? ==> op.record.hash == op.hash
  }

  lemma StepKeepsInv(s: Store, maxSize: nat, op: Op)
    requires StoreInv(s) && |s.records| <= Max(1, maxSize) && (op.Set? ==> op.record.hash == op.hash)
    ensures var t := Step(s, maxSize, op); StoreInv(t) && |t.records| <= Max(1, maxSize)
  {
    hide StoreInv, Put, Delete, EvictThese;
    match op
    case Set(h, r) => PutKeepsInv(s, maxSize, h, r);
    case Update(h, status) => UpdateKeepsInv(s, h, status);
    case Remove(h) => DeleteKeepsInv(s, h); MapMinus(s.records, h);
    case Sweep(now, graceMs) => EvictTheseKeepsInv(s, s.order, now, graceMs, Hash(""));
  }

  /** After any run the index partitions the stored hashes by status, and the bound holds. */
  lemma {:induction false} IndexAlwaysAgrees(maxSize: nat, ops: seq<Op>)
    requires OwnHashes(ops)
    ensures var s := Run(EMPTY, maxSize, ops); StoreInv(s) && |s.records| <= Max(1, maxSize)
  {
    if ops != [] {
      var m := |ops| - 1;
      IndexAlwaysAgrees(maxSize, ops[..m]);
      assert ops[m] in ops;
      StepKeepsInv(Run(EMPTY, maxSize, ops[..m]), maxSize, ops[m]);
      hide StoreInv, Step;
    }
  }

  /** `maxSize` is a bound on every run exactly if it leaves room for one record. */
  lemma {:induction false} BoundIffRoomForOne(maxSize: nat, ops: seq<Op>, h: Hash, r: Record)
    requires OwnHashes(ops) && r.hash == h
    ensures |Run(EMPTY, maxSize, ops + [Set(h, r)]).records| <= maxSize <==> maxSize >= 1
  {
    hide Put, StoreInv;
    var s := Run(EMPTY, maxSize, ops);
    IndexAlwaysAgrees(maxSize, ops);
    PutKeepsInv(s, maxSize, h, r);
    assert (ops + [Set(h, r)])[..|ops|] == ops;
  }

  /** Until it is stored anew, a terminal record keeps its status for as long as it is kept. */
  lemma {:induction false} TerminalSticks(s: Store, maxSize: nat, ops: seq<Op>, h: Hash)
    requires StoreInv(s) && |s.records| <= Max(1, maxSize) && OwnHashes(ops)
    requires h in s.records && Terminal(s.records[h].status)
    requires forall op <- ops :: op.Set? ==> op.hash != h
    ensures var t := Run(s, maxSize, ops);
      && StoreInv(t) && |t.records| <= Max(1, maxSize)
      && (h in t.records ==> t.records[h].status == s.records[h].status)
  {
    if ops != [] {
      var m := |ops| - 1;
      var here, op := Run(s, maxSize, ops[..m]), ops[m];
      TerminalSticks(s, maxSize, ops[..m], h);
      assert op in ops;
      StepKeepsInv(here, maxSize, op);
      StepKeepsTerminal(here, maxSize, op, h);
      hide StoreInv, Step;
    }
  }

  lemma StepKeepsTerminal(s: Store, maxSize: nat, op: Op, h: Hash)
    requires StoreInv(s) && (op.Set? ==> op.hash != h && op.record.hash == op.hash)
    requires h in s.records ==> Terminal(s.records[h].status)
    ensures var t := Step(s, maxSize, op); h in t.records ==> h in s.records && t.records[h] == s.records[h]
  {
    hide Delete, StoreInv, Victim, UpdateStatus, EvictThese;
    match op
    case Set(g, r) =>
      DeleteKeepsInv(s, g);
      EvictKeepsInv(Delete(s, g));
      if Victim(Delete(s, g)).Some? { DeleteKeepsInv(Delete(s, g), Victim(Delete(s, g)).value); }
    case Update(g, status) => UpdateKeepsInv(s, g, status);
    case Remove(g) => DeleteKeepsInv(s, g);
    case Sweep(now, graceMs) => EvictTheseKeepsInv(s, s.order, now, graceMs, h);
  }

  // --- Listing -----------------------------------------------------------------------------

  /** `all(status)`: the records an index names, in its order. */
  function Records(s: Store, hashes: seq<Hash>): seq<Record> {
    if hashes == [] then []
    else
      var h := hashes[|hashes| - 1];
      Records(s, hashes[..|hashes| - 1]) + if h in s.records then [s.records[h]] else []
  }

  predicate Stored(s: Store, hashes: seq<Hash>) {
    forall h <- hashes :: h in s.records
  }

  /** The same when nothing is missing. */
  function Lookup(s: Store, hashes: seq<Hash>): (r: seq<Record>)
    requires Stored(s, hashes)
    ensures |r| == |hashes|
  {
    seq(|hashes|, i requires 0 <= i < |hashes| => s.records[hashes[i]])
  }

  lemma {:induction false} RecordsOf(s: Store, hashes: seq<Hash>)
    requires Stored(s, hashes)
    ensures Records(s, hashes) == Lookup(s, hashes)
  {
    if hashes != [] {
      var m := |hashes| - 1;
      RecordsOf(s, hashes[..m]);
      assert hashes[m] in s.records;
    }
  }

  /** The i-th record of a status's listing is the one under the i-th hash of its index. */
  lemma AllAt(s: Store, status: Status, i: nat)
    requires StoreInv(s) && i < |s.Index(status)|
    ensures var hs, all := s.Index(status), Records(s, s.Index(status));
      && |all| == |hs| && hs[i] in s.records && all[i] == s.records[hs[i]] && all[i].hash == hs[i] && all[i].status == status
  {
    hide Distinct, OrderInv;
    assert StatusInv(s, status);
    assert s.Index(status)[i] in s.Index(status);
    RecordsOf(s, s.Index(status));
  }

  lemma AllLength(s: Store, status: Status)
    requires StoreInv(s)
    ensures |Records(s, s.Index(status))| == |s.Index(status)|
  {
    hide Distinct, OrderInv;
    assert StatusInv(s, status);
    RecordsOf(s, s.Index(status));
  }

  /** Listing by status finds exactly the records with that status. */
  lemma AllIsFilter(s: Store, status: Status, r: Record)
    requires StoreInv(s)
    ensures r in Records(s, s.Index(status)) <==> r.hash in s.records && s.records[r.hash] == r && r.status == status
  {
    hide Records, Distinct, OrderInv;
    var hs, all := s.Index(status), Records(s, s.Index(status));
    AllLength(s, status);
    if r in all {
      var i :| 0 <= i < |all| && all[i] == r;
      AllAt(s, status, i);
    }
    if r.hash in s.records && s.records[r.hash] == r && r.status == status {
      assert StatusInv(s, status);
      var i :| 0 <= i < |hs| && hs[i] == r.hash;
      AllAt(s, status, i);
    }
  }

  /** And none of them twice. */
  lemma AllDistinct(s: Store, status: Status, i: nat, j: nat)
    requires StoreInv(s) && i < j < |Records(s, s.Index(status))|
    ensures Records(s, s.Index(status))[i].hash != Records(s, s.Index(status))[j].hash
  {
    hide Records, Distinct, OrderInv;
    AllLength(s, status);
    AllAt(s, status, i);
    AllAt(s, status, j);
    assert StatusInv(s, status);
    DistinctAt(s.Index(status), i, j);
  }

  /** A listing takes a hash if it is stored, and on the wanted chain. */
  predicate Wanted(s: Store, h: Hash, chainId: Option<nat>) {
    h in s.records && (chainId.Some? ==> s.records[h].sourceChainId == chainId.value)
  }

  /** The hashes a listing walks. */
  function Selected(s: Store, hashes: seq<Hash>, chainId: Option<nat>): (r: seq<Hash>)
    ensures Stored(s, r) && forall h <- r :: h in hashes
  {
    if hashes == [] then []
    else
      var m := |hashes| - 1;
      var h := hashes[m];
      assert hashes == hashes[..m] + [h];
      Selected(s, hashes[..m], chainId)
      + if Wanted(s, h, chainId) then [h] else []
  }

  /** Where a page starts: after the cursor, or past the end if the cursor is not there. */
  function StartAfter(hashes: seq<Hash>, cursor: Option<Hash>): (k: nat)
    ensures k <= |hashes|
  {
    match cursor
    case None => 0
    case Some(c) =>
      if hashes == [] then 0
      else if c in hashes[..|hashes| - 1] then StartAfter(hashes[..|hashes| - 1], cursor)
      else |hashes|
  }

  datatype Page = Page(records: seq<Record>, nextCursor: Option<Hash>)

  function PageOf(s: Store, hashes: seq<Hash>, cursor: Option<Hash>, limit: nat): Page
    requires Stored(s, hashes)
  {
    var start := StartAfter(hashes, cursor);
    var end := Min(start + limit, |hashes|);
    var more := start + limit < |hashes|;
    Page(Lookup(s, hashes[start..end]), if more && end > start then Some(s.records[hashes[end - 1]].hash) else None)
  }

  function List(s: Store, status: Option<Status>, chainId: Option<nat>, cursor: Option<Hash>, limit: nat): Page {
    var hashes := if status.Some? then s.Index(status.value) else s.order;
    PageOf(s, Selected(s, hashes, chainId), cursor, limit)
  }

  /** A listing walks exactly the stored hashes of the index asked for that come from the chain asked for. */
  lemma {:induction false} SelectedIff(s: Store, hashes: seq<Hash>, chainId: Option<nat>, h: Hash)
    ensures h in Selected(s, hashes, chainId) <==>
      h in hashes && h in s.records && (chainId.None? || s.records[h].sourceChainId == chainId.value)
  {
    if hashes != [] {
      var m := |hashes| - 1;
      assert hashes == hashes[..m] + [hashes[m]];
      SelectedIff(s, hashes[..m], chainId, h);
    }
  }

  // --- Pages fit together ----------------------------------------------------------------

  lemma {:induction false} SelectedPrefix(s: Store, hashes: seq<Hash>, chainId: Option<nat>, i: nat)
    requires i <= |hashes|
    ensures Selected(s, hashes[..i], chainId) <= Selected(s, hashes, chainId)
  {
    if i == |hashes| {
      assert hashes[..i] == hashes;
    } else {
      var m := |hashes| - 1;
      SelectedPrefix(s, hashes[..m], chainId, i);
      assert hashes[..m][..i] == hashes[..i];
    }
  }

  lemma {:induction false} StartAfterKnown(hashes: seq<Hash>, i: nat)
    requires Distinct(hashes) && i < |hashes|
    ensures StartAfter(hashes, Some(hashes[i])) == i + 1
  {
    var m := |hashes| - 1;
    if i < m {
      assert hashes[..m][i] == hashes[i];
      StartAfterKnown(hashes[..m], i);
    }
  }

  lemma {:induction false} StartAfterGrows(hashes: seq<Hash>, more: seq<Hash>, cursor: Option<Hash>)
    requires cursor.None? || cursor.value in hashes
    ensures StartAfter(hashes + more, cursor) == StartAfter(hashes, cursor)
  {
    if cursor.Some? && more != [] {
      var m := |more| - 1;
      assert (hashes + more)[..|hashes + more| - 1] == hashes + more[..m];
      StartAfterGrows(hashes, more[..m], cursor);
    } else {
      assert hashes + [] == hashes;
    }
  }

  lemma {:induction false} StartAfterUnknown(hashes: seq<Hash>, c: Hash)
    requires c !in hashes
    ensures StartAfter(hashes, Some(c)) == |hashes|
  {
  }

  lemma LookupSlice(s: Store, hashes: seq<Hash>, i: nat, j: nat)
    requires i <= j <= |hashes| && Stored(s, hashes)
    ensures Stored(s, hashes[i..j]) && Lookup(s, hashes[i..j]) == Lookup(s, hashes)[i..j]
  {
  }

  lemma OwnHashAt(s: Store, hashes: seq<Hash>, i: nat)
    requires OwnHash(s) && Stored(s, hashes) && i < |hashes|
    ensures hashes[i] in s.records && s.records[hashes[i]].hash == hashes[i]
  {
  }

  lemma StartAtFirst(hashes: seq<Hash>)
    ensures StartAfter(hashes, None) == 0
  {
  }

  /** A page that starts after the i-th record holds the next `limit` records, and names the last of them if more follow. */
  lemma PageAt(s: Store, hashes: seq<Hash>, cursor: Option<Hash>, limit: nat, i: nat)
    requires OwnHash(s) && Distinct(hashes) && Stored(s, hashes) && limit >= 1 && i <= |hashes|
    requires if i == 0 then cursor.None? else cursor == Some(hashes[i - 1])
    ensures var end := Min(i + limit, |hashes|);
      PageOf(s, hashes, cursor, limit) == Page(Lookup(s, hashes)[i..end], if end < |hashes| then Some(hashes[end - 1]) else None)
  {
    hide Lookup, Distinct, OwnHash, Stored, StartAfter;
    if i > 0 { StartAfterKnown(hashes, i - 1); } else { StartAtFirst(hashes); }
    var end := Min(i + limit, |hashes|);
    LookupSlice(s, hashes, i, end);
    if end > i { OwnHashAt(s, hashes, end - 1); }
  }
}
