/**
 * The storage contract's values and the abstract engine state.
 *
 * The embedded engine is replaced by its observable content: a map from
 * (column family, key) to value. Within one column family keys are ordered
 * bytewise, which is the order the engine's per-family iterator walks.
 */
module Storage {
  import opened Bytes
  import opened Outcomes

  type Key = Bytes
  type Value = Bytes

  /** A key qualified by its column family; equal keys in two families never collide. */
  type CfKey = (string, Key)

  /** The engine's content. */
  type Db = map<CfKey, Value>

  /** One write intent of a batch. */
  datatype Modify =
    | Put(cf: string, key: Key, value: Value)
    | Delete(cf: string, key: Key)
  {
    /** The one (column family, key) this intent writes. */
    function Target(): CfKey
    {
      (cf, key)
    }

    /** What a lookup of the target sees once this intent is applied. */
    function Effect(): Option<Value>
    {
      if Put? then Some(value) else None
    }
  }

  /** A point lookup of the engine state: `None` when the key is absent. */
  function Lookup(db: Db, p: CfKey): Option<Value>
  {
    if p in db then Some(db[p]) else None
  }

  /** One successful engine write (`engine_util.PutCF` / `engine_util.DeleteCF`). */
  function Apply(db: Db, m: Modify): (r: Db)
    ensures Lookup(r, m.Target()) == m.Effect()
    ensures forall p :: p != m.Target() ==> Lookup(r, p) == Lookup(db, p)
  {
    match m
    case Put(cf, key, value) => db[(cf, key) := value]
    case Delete(cf, key) => db - {(cf, key)}
  }

  /**
   * The state after a batch is written element by element in list order,
   * where the engine write of element i fails (and changes nothing) exactly
   * when i is in `faults`.
   */
  function ApplyBatch(db: Db, batch: seq<Modify>, faults: set<int>): Db
    decreases |batch|
  {
    if batch == [] then db
    else
      var n := |batch| - 1;
      var before := ApplyBatch(db, batch[..n], faults);
      if n in faults then before else Apply(before, batch[n])
  }

  /** Reference definition: the left fold of `Apply` over the batch. */
  function Fold(db: Db, batch: seq<Modify>): Db
    decreases |batch|
  {
    if batch == [] then db else Fold(Apply(db, batch[0]), batch[1..])
  }

  lemma {:induction false} FoldSnoc(db: Db, batch: seq<Modify>, m: Modify)
    ensures Fold(db, batch + [m]) == Apply(Fold(db, batch), m)
    decreases |batch|
  {
    if batch != [] {
      assert (batch + [m])[1..] == batch[1..] + [m];
      FoldSnoc(Apply(db, batch[0]), batch[1..], m);
    }
  }

  /** Without engine failures a batch is applied as the left fold of its intents, in list order. */
  lemma {:induction false} BatchIsLeftFold(db: Db, batch: seq<Modify>)
    ensures ApplyBatch(db, batch, {}) == Fold(db, batch)
    decreases |batch|
  {
    if batch != [] {
      var n := |batch| - 1;
      BatchIsLeftFold(db, batch[..n]);
      FoldSnoc(db, batch[..n], batch[n]);
      assert batch[..n] + [batch[n]] == batch;
    }
  }

  /** A key that no applied intent of the batch names keeps its old value (or stays absent). */
  lemma {:induction false} Untouched(db: Db, batch: seq<Modify>, faults: set<int>, p: CfKey)
    requires forall l :: 0 <= l < |batch| && l !in faults ==> batch[l].Target() != p
    ensures Lookup(ApplyBatch(db, batch, faults), p) == Lookup(db, p)
    decreases |batch|
  {
    if batch != [] {
      var n := |batch| - 1;
      assert forall l :: 0 <= l < n ==> batch[..n][l] == batch[l];
      Untouched(db, batch[..n], faults, p);
    }
  }

  /** The last applied intent naming a key decides what a lookup of that key sees. */
  lemma {:induction false} LastWins(db: Db, batch: seq<Modify>, faults: set<int>, j: nat)
    requires j < |batch| && j !in faults
    requires forall l :: j < l < |batch| && l !in faults ==> batch[l].Target() != batch[j].Target()
    ensures Lookup(ApplyBatch(db, batch, faults), batch[j].Target()) == batch[j].Effect()
    decreases |batch|
  {
    var n := |batch| - 1;
    if j < n {
      assert batch[..n][j] == batch[j];
      assert forall l :: j < l < n ==> batch[..n][l] == batch[l];
      LastWins(db, batch[..n], faults, j);
    }
  }

  /** Every intent fails: the state is unchanged. */
  lemma {:induction false} AllFailed(db: Db, batch: seq<Modify>, faults: set<int>)
    requires forall l :: 0 <= l < |batch| ==> l in faults
    ensures ApplyBatch(db, batch, faults) == db
    decreases |batch|
  {
    if batch != [] {
      AllFailed(db, batch[..|batch| - 1], faults);
    }
  }

  /** After writing `Put(cf, k, v)` a lookup of (cf, k) returns v. */
  lemma PutThenGet(db: Db, cf: string, k: Key, v: Value)
    ensures Lookup(ApplyBatch(db, [Put(cf, k, v)], {}), (cf, k)) == Some(v)
  {
    LastWins(db, [Put(cf, k, v)], {}, 0);
  }

  /** After writing `Delete(cf, k)` the key is absent. */
  lemma DeleteErases(db: Db, cf: string, k: Key)
    ensures Lookup(ApplyBatch(db, [Delete(cf, k)], {}), (cf, k)) == None
  {
    LastWins(db, [Delete(cf, k)], {}, 0);
  }

  /** Put, then Delete of the same key, in two writes: the key is absent. */
  lemma PutThenDelete(db: Db, cf: string, k: Key, v: Value)
    ensures Lookup(ApplyBatch(ApplyBatch(db, [Put(cf, k, v)], {}), [Delete(cf, k)], {}), (cf, k)) == None
  {
    DeleteErases(ApplyBatch(db, [Put(cf, k, v)], {}), cf, k);
  }

  /**
   * Column-family isolation: a batch that writes only other column families
   * leaves every key of `cf` as it was, byte-identical keys included.
   */
  lemma ColumnFamilyIsolation(db: Db, batch: seq<Modify>, faults: set<int>, cf: string, k: Key)
    requires forall l :: 0 <= l < |batch| ==> batch[l].cf != cf
    ensures Lookup(ApplyBatch(db, batch, faults), (cf, k)) == Lookup(db, (cf, k))
  {
    Untouched(db, batch, faults, (cf, k));
  }

  /** The keys stored in one column family. */
  function CfKeys(db: Db, cf: string): (ks: set<Key>)
    ensures forall k :: k in ks <==> (cf, k) in db
  {
    set p | p in db && p.0 == cf :: p.1
  }

  /** The keys of one column family in the order its iterator walks them. */
  function SortedKeys(db: Db, cf: string): (r: seq<Key>)
    ensures Ascending(r)
    ensures forall k :: k in r <==> (cf, k) in db
  {
    SortSet(CfKeys(db, cf))
  }

  /** The iterator order is the only ascending arrangement of the family's keys. */
  lemma SortedKeysUnique(db: Db, cf: string, s: seq<Key>)
    requires Ascending(s)
    requires forall k :: k in s <==> (cf, k) in db
    ensures s == SortedKeys(db, cf)
  {
    AscendingUnique(s, SortedKeys(db, cf));
  }

  /** Where `Seek(start)` leaves a cursor over `keys`: the first key at or above `start`. */
  function SeekIndex(keys: seq<Key>, start: Key): (i: nat)
    ensures i <= |keys|
    ensures forall j {:trigger LessEq(start, keys[j])} :: 0 <= j < i ==> !LessEq(start, keys[j])
    ensures i < |keys| ==> LessEq(start, keys[i])
    decreases |keys|
  {
    if keys == [] || LessEq(start, keys[0]) then 0 else 1 + SeekIndex(keys[1..], start)
  }

  /** On ascending keys, everything from the seek position on is at or above `start`. */
  lemma SeekSplits(keys: seq<Key>, start: Key)
    requires Ascending(keys)
    ensures forall j :: SeekIndex(keys, start) <= j < |keys| ==> LessEq(start, keys[j])
  {
    var i := SeekIndex(keys, start);
    forall j | i <= j < |keys| ensures LessEq(start, keys[j]) {
      if i < j {
        assert Less(keys[i], keys[j]);
        Transitive(start, keys[i], keys[j]);
      }
    }
  }
}
