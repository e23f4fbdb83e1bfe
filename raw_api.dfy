/**
 * The server's raw request handlers: point get, put, delete and a bounded
 * ascending scan, each translated into calls on the storage backend.
 */
module RawApi {
  import opened Bytes
  import opened Outcomes
  import opened Storage
  import opened Standalone

  newtype uint32 = x: int | 0 <= x < 0x1_0000_0000

  datatype RawGetRequest = RawGetRequest(cf: string, key: Key)
  datatype RawGetResponse = RawGetResponse(value: Option<Value>, notFound: bool)

  datatype RawPutRequest = RawPutRequest(cf: string, key: Key, value: Value)
  datatype RawPutResponse = RawPutResponse

  datatype RawDeleteRequest = RawDeleteRequest(cf: string, key: Key)
  datatype RawDeleteResponse = RawDeleteResponse

  datatype RawScanRequest = RawScanRequest(cf: string, startKey: Key, limit: uint32)
  datatype KvPair = KvPair(key: Key, value: Value)
  datatype RawScanResponse = RawScanResponse(kvs: seq<KvPair>)

  function Min(a: int, b: int): int
  {
    if a <= b then a else b
  }

  /** The pairs for `keys` with their stored values, in the order given. */
  function PairsOf(db: Db, cf: string, keys: seq<Key>): (kvs: seq<KvPair>)
    requires forall k :: k in keys ==> (cf, k) in db
    ensures |kvs| == |keys|
    decreases |keys|
  {
    if keys == [] then []
    else
      var n := |keys| - 1;
      PairsOf(db, cf, keys[..n]) + [KvPair(keys[n], db[(cf, keys[n])])]
  }

  /** Pair j holds key j and the value stored under it. */
  lemma {:induction false} PairsOfAt(db: Db, cf: string, keys: seq<Key>)
    requires forall k :: k in keys ==> (cf, k) in db
    ensures forall j :: 0 <= j < |keys| ==> PairsOf(db, cf, keys)[j] == KvPair(keys[j], db[(cf, keys[j])])
    decreases |keys|
  {
    if keys != [] {
      var n := |keys| - 1;
      PairsOfAt(db, cf, keys[..n]);
    }
  }

  /** The run of `keys` that a cursor standing at `from` walks: `limit` keys, or all that are left. */
  function Window(keys: seq<Key>, from: nat, limit: int): (w: seq<Key>)
    requires from <= |keys|
    ensures |w| == Min(if limit < 0 then 0 else limit, |keys| - from)
    ensures forall j :: 0 <= j < |w| ==> w[j] == keys[from + j]
  {
    keys[from..from + Min(if limit < 0 then 0 else limit, |keys| - from)]
  }

  /**
   * What the scan loop yields from a cursor over `keys` standing at `from`,
   * where the value copy on iteration i fails exactly when i is in
   * `copyFaults`: the pairs of the window in order, unless an iteration inside
   * the window fails, which aborts the scan with no pairs.
   */
  function Gather(view: Db, cf: string, keys: seq<Key>, from: nat, limit: int, copyFaults: set<int>): Result<seq<KvPair>>
    requires from <= |keys|
    requires forall k :: k in keys ==> (cf, k) in view
  {
    var w := Window(keys, from, limit);
    if exists j :: 0 <= j < |w| && j in copyFaults then Err(CopyFault)
    else Ok(PairsOf(view, cf, w))
  }

  /**
   * The keys a scan visits when no value copy fails: the window of the
   * family's sorted keys that starts at the seek position.
   */
  function ScanKeys(db: Db, cf: string, start: Key, limit: int): (w: seq<Key>)
    ensures forall k :: k in w ==> (cf, k) in db
  {
    var ks := SortedKeys(db, cf);
    Window(ks, SeekIndex(ks, start), limit)
  }

  /** What a scan collects when no value copy fails: the visited keys with their stored values. */
  function ScanPairs(db: Db, cf: string, start: Key, limit: int): seq<KvPair>
  {
    PairsOf(db, cf, ScanKeys(db, cf, start, limit))
  }

  /**
   * The outcome of a scan request on state `db`, where the value copy on
   * iteration i fails exactly when i is in `copyFaults`: a failure on an
   * iteration the fault-free scan performs aborts with no pairs; otherwise
   * the result is the fault-free pairs.
   */
  function ScanSpec(db: Db, req: RawScanRequest, copyFaults: set<int>): Result<RawScanResponse>
  {
    var w := ScanKeys(db, req.cf, req.startKey, req.limit as int);
    if exists j :: 0 <= j < |w| && j in copyFaults then Err(CopyFault)
    else Ok(RawScanResponse(ScanPairs(db, req.cf, req.startKey, req.limit as int)))
  }

  /** A scan returns at most `limit` pairs. */
  lemma ScanBounded(db: Db, cf: string, start: Key, limit: int)
    ensures |ScanPairs(db, cf, start, limit)| <= if limit < 0 then 0 else limit
  {
  }

  /** On ascending keys, every key of the window from the seek position is at or above `start`. */
  lemma WindowFromStart(ks: seq<Key>, start: Key, limit: int)
    requires Ascending(ks)
    ensures forall k :: k in Window(ks, SeekIndex(ks, start), limit) ==> LessEq(start, k)
  {
    var w := Window(ks, SeekIndex(ks, start), limit);
    SeekSplits(ks, start);
    forall k | k in w ensures LessEq(start, k) {
      var j :| 0 <= j < |w| && w[j] == k;
      assert k == ks[SeekIndex(ks, start) + j];
    }
  }

  /** Every visited key is at or above `start`. */
  lemma ScanKeysFromStart(db: Db, cf: string, start: Key, limit: int)
    ensures forall k :: k in ScanKeys(db, cf, start, limit) ==> LessEq(start, k)
  {
    WindowFromStart(SortedKeys(db, cf), start, limit);
  }

  /** The visited keys are strictly ascending. */
  lemma ScanKeysAscending(db: Db, cf: string, start: Key, limit: int)
    ensures Ascending(ScanKeys(db, cf, start, limit))
  {
  }

  /**
   * No key is skipped: a family key at or above `start` is visited when it is
   * at or below the last visited key (so the first visited key is the least
   * key at or above `start`), and every such key is visited when fewer than
   * `limit` keys were.
   */
  lemma {:induction false} ScanKeysConsecutive(db: Db, cf: string, start: Key, limit: int, k: Key)
    requires (cf, k) in db && LessEq(start, k)
    ensures var w := ScanKeys(db, cf, start, limit);
      (|w| > 0 && LessEq(k, w[|w| - 1])) || |w| < limit ==> k in w
  {
    var ks := SortedKeys(db, cf);
    var from := SeekIndex(ks, start);
    var w := ScanKeys(db, cf, start, limit);
    var n := |w|;
    if (n > 0 && LessEq(k, w[n - 1])) || n < limit {
      var idx :| 0 <= idx < |ks| && ks[idx] == k;
      assert from <= idx;
      if from + n <= idx {
        assert n > 0 && w[n - 1] == ks[from + n - 1];
        assert Less(ks[from + n - 1], ks[idx]);
        Antisymmetric(k, ks[from + n - 1]);
      }
      assert w[idx - from] == k;
    }
  }

  /** A fault-free scan returns the visited keys, in order, each with its stored value. */
  lemma ScanPairsStored(db: Db, cf: string, start: Key, limit: int)
    ensures var w := ScanKeys(db, cf, start, limit);
      var kvs := ScanPairs(db, cf, start, limit);
      |kvs| == |w| && forall j :: 0 <= j < |kvs| ==> kvs[j] == KvPair(w[j], db[(cf, w[j])])
  {
    PairsOfAt(db, cf, ScanKeys(db, cf, start, limit));
  }

  /**
   * The scan loop: copies the pair under the cursor and advances, until
   * `limit` pairs are copied or the cursor runs out. The value copy on
   * iteration i fails exactly when i is in `copyFaults`, and a failure aborts
   * the loop with its error.
   */
  method CopyPairs(it: CFIterator, limit: int, copyFaults: set<int>) returns (r: Result<seq<KvPair>>)
    requires it.Inv()
    modifies it
    ensures r == Gather(it.view, it.cf, it.keys, old(it.pos), limit, copyFaults)
  {
    ghost var from := it.pos;
    ghost var w := Window(it.keys, from, limit);
    var i := 0;
    var kvs: seq<KvPair> := [];
    while i < limit && it.Valid()
      invariant it.Inv() && it.pos == from + i && i <= |w|
      invariant kvs == PairsOf(it.view, it.cf, w[..i])
      invariant forall j :: 0 <= j < i ==> j !in copyFaults
      decreases |it.keys| - it.pos
    {
      var key := it.KeyCopy();
      var value := it.ValueCopy(i in copyFaults);
      if value.Err? {
        assert i < |w| && i in copyFaults;
        return Err(value.error);
      }
      assert w[..i + 1][..i] == w[..i] && w[i] == key;
      kvs := kvs + [KvPair(key, value.value)];
      i := i + 1;
      it.Next();
    }
    assert w[..i] == w;
    return Ok(kvs);
  }

  /** Keys "a" to "d" stored in family C in any order are walked in alphabetical order. */
  lemma ExampleOrder(db: Db)
    requires CfKeys(db, "C") == {[97], [98], [99], [100]}
    ensures SortedKeys(db, "C") == [[97], [98], [99], [100]]
  {
    var s: seq<Key> := [[97], [98], [99], [100]];
    assert Ascending(s) by {
      assert s[0][0] < s[1][0] < s[2][0] < s[3][0];
      forall i, j | 0 <= i < j < 4 ensures Less(s[i], s[j]) {
        assert s[i][0] < s[j][0];
      }
    }
    forall k ensures k in s <==> ("C", k) in db {
      assert k in s <==> k in CfKeys(db, "C");
    }
    SortedKeysUnique(db, "C", s);
  }

  /** With keys "a" to "d" in family C, a scan from "b" with limit 2 visits "b" and "c". */
  lemma ExampleWindow(db: Db)
    requires SortedKeys(db, "C") == [[97], [98], [99], [100]]
    ensures ScanKeys(db, "C", [98], 2) == [[98], [99]]
  {
    var s := SortedKeys(db, "C");
    assert !LessEq([98], s[0]) && LessEq([98], s[1]);
    assert SeekIndex(s, [98]) == 1;
  }

  /**
   * Keys "a" to "d" stored in family C: a scan of C from "b" with limit 2
   * returns exactly the pairs for "b" and "c".
   */
  lemma ScanExample(db: Db, va: Value, vb: Value, vc: Value, vd: Value)
    requires CfKeys(db, "C") == {[97], [98], [99], [100]}
    requires db[("C", [97])] == va && db[("C", [98])] == vb
    requires db[("C", [99])] == vc && db[("C", [100])] == vd
    ensures ScanSpec(db, RawScanRequest("C", [98], 2), {}) ==
      Ok(RawScanResponse([KvPair([98], vb), KvPair([99], vc)]))
  {
    ExampleOrder(db);
    ExampleWindow(db);
    ScanPairsStored(db, "C", [98], 2);
    var kvs := ScanPairs(db, "C", [98], 2);
    assert kvs[0] == KvPair([98], vb) && kvs[1] == KvPair([99], vc);
    assert kvs == [KvPair([98], vb), KvPair([99], vc)];
  }

  class Server {
    const storage: StandAloneStorage

    constructor (storage: StandAloneStorage)
      ensures this.storage == storage
    {
      this.storage := storage;
    }

    /**
     * Point read: a `nil` value from the reader becomes `NotFound`; a reader
     * or lookup failure would abort with that error and no response. The
     * engine fault `fault` is swallowed by GetCF and so also reads as
     * `NotFound`.
     */
    method RawGet(req: RawGetRequest, fault: bool) returns (r: Result<RawGetResponse>)
      ensures r.Ok?
      ensures r.value.notFound <==> fault || (req.cf, req.key) !in storage.db
      ensures r.value.notFound ==> r.value.value == None
      ensures !r.value.notFound ==> r.value.value == Some(storage.db[(req.cf, req.key)])
    {
      var reader, err := storage.Reader();
      match err {
        case Some(e) => return Err(e);
        case None =>
      }
      var value, err2 := reader.GetCF(req.cf, req.key, fault);
      match err2 {
        case Some(e) => return Err(e);
        case None =>
      }
      return Ok(RawGetResponse(value, value.None?));
    }

    /**
     * Put: one Write of the single intent built from the request. The call
     * succeeds even when the engine write fails (`fault`), since Write
     * ignores engine errors.
     */
    method RawPut(req: RawPutRequest, fault: bool) returns (r: Result<RawPutResponse>)
      modifies storage
      ensures storage.db == ApplyBatch(old(storage.db), [Put(req.cf, req.key, req.value)], if fault then {0} else {})
      ensures r == Ok(RawPutResponse)
      ensures !fault ==> Lookup(storage.db, (req.cf, req.key)) == Some(req.value)
      ensures fault ==> storage.db == old(storage.db)
      ensures forall p :: p != (req.cf, req.key) ==> Lookup(storage.db, p) == Lookup(old(storage.db), p)
    {
      var intent := Put(req.cf, req.key, req.value);
      ghost var before := storage.db;
      var err := storage.Write([intent], if fault then {0} else {});
      match err {
        case Some(e) => return Err(e);
        case None =>
      }
      if !fault {
        PutThenGet(before, req.cf, req.key, req.value);
      }
      forall p | p != (req.cf, req.key) ensures Lookup(storage.db, p) == Lookup(before, p) {
        Untouched(before, [intent], if fault then {0} else {}, p);
      }
      return Ok(RawPutResponse);
    }

    /**
     * Delete: one Write of the single intent built from the request; the key
     * is absent afterwards unless the engine write failed.
     */
    method RawDelete(req: RawDeleteRequest, fault: bool) returns (r: Result<RawDeleteResponse>)
      modifies storage
      ensures storage.db == ApplyBatch(old(storage.db), [Delete(req.cf, req.key)], if fault then {0} else {})
      ensures r == Ok(RawDeleteResponse)
      ensures !fault ==> (req.cf, req.key) !in storage.db
      ensures fault ==> storage.db == old(storage.db)
      ensures forall p :: p != (req.cf, req.key) ==> Lookup(storage.db, p) == Lookup(old(storage.db), p)
    {
      var intent := Delete(req.cf, req.key);
      ghost var before := storage.db;
      var err := storage.Write([intent], if fault then {0} else {});
      match err {
        case Some(e) => return Err(e);
        case None =>
      }
      if !fault {
        DeleteErases(before, req.cf, req.key);
      }
      forall p | p != (req.cf, req.key) ensures Lookup(storage.db, p) == Lookup(before, p) {
        Untouched(before, [intent], if fault then {0} else {}, p);
      }
      return Ok(RawDeleteResponse);
    }

    /**
     * Scan: seek to the start key, then copy pairs until `limit` are
     * collected or the cursor runs out. A failing value copy on iteration i
     * (i in `copyFaults`) aborts with the error and no pairs.
     */
    method RawScan(req: RawScanRequest, copyFaults: set<int>) returns (r: Result<RawScanResponse>)
      ensures r == ScanSpec(storage.db, req, copyFaults)
    {
      var reader, err := storage.Reader();
      match err {
        case Some(e) => return Err(e);
        case None =>
      }
      var it := reader.IterCF(req.cf);
      it.Seek(req.startKey);
      var res := CopyPairs(it, req.limit as int, copyFaults);
      match res {
        case Err(e) => return Err(e);
        case Ok(kvs) => return Ok(RawScanResponse(kvs));
      }
    }
  }
}
