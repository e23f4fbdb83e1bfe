/**
 * The single-node backend: it owns the engine handle and is its own reader.
 * The engine handle `innerDB` is modelled by the map `db` of its content.
 */
module Standalone {
  import opened Bytes
  import opened Outcomes
  import opened Storage

  /** The engine's point lookup: the value, `KeyNotFound`, or (on an engine fault) another error. */
  function EngineGet(db: Db, cf: string, key: Key, fault: bool): (r: (Option<Value>, Option<Error>))
    ensures r.1 == None <==> !fault && (cf, key) in db
    ensures r.1 == None ==> r.0 == Some(db[(cf, key)])
    ensures r.1 == Some(KeyNotFound) <==> !fault && (cf, key) !in db
    ensures r.1.Some? ==> r.0 == None
  {
    if fault then (None, Some(EngineFault))
    else if (cf, key) in db then (Some(db[(cf, key)]), None)
    else (None, Some(KeyNotFound))
  }

  class StandAloneStorage {
    var db: Db

    constructor (content: Db)
      ensures db == content
    {
      db := content;
    }

    /** The backend is its own reader, over the same live state; it never fails. */
    method Reader() returns (reader: StandAloneStorage, err: Option<Error>)
      ensures reader == this && err == None
    {
      return this, None;
    }

    /** `engine_util.PutCF`: sets the key unless the engine write fails. */
    method PutCF(cf: string, key: Key, value: Value, fault: bool) returns (err: Option<Error>)
      modifies this
      ensures db == if fault then old(db) else old(db)[(cf, key) := value]
      ensures err == if fault then Some(EngineFault) else None
    {
      if fault {
        return Some(EngineFault);
      }
      db := db[(cf, key) := value];
      return None;
    }

    /** `engine_util.DeleteCF`: removes the key unless the engine write fails. */
    method DeleteCF(cf: string, key: Key, fault: bool) returns (err: Option<Error>)
      modifies this
      ensures db == if fault then old(db) else old(db) - {(cf, key)}
      ensures err == if fault then Some(EngineFault) else None
    {
      if fault {
        return Some(EngineFault);
      }
      db := db - {(cf, key)};
      return None;
    }

    /**
     * Applies the batch one intent at a time, in list order; the engine call
     * for intent i fails exactly when i is in `faults`. Engine errors are
     * ignored and the call reports success whatever happened.
     */
    method Write(batch: seq<Modify>, faults: set<int>) returns (err: Option<Error>)
      modifies this
      ensures err == None
      ensures db == ApplyBatch(old(db), batch, faults)
    {
      for i := 0 to |batch|
        invariant db == ApplyBatch(old(db), batch[..i], faults)
      {
        assert batch[..i + 1][..i] == batch[..i];
        match batch[i]
        case Put(cf, key, value) =>
          var _ := PutCF(cf, key, value, i in faults);
        case Delete(cf, key) =>
          var _ := DeleteCF(cf, key, i in faults);
      }
      assert batch[..|batch|] == batch;
      return None;
    }

    /**
     * Point lookup. An absent key yields `nil` with no error; any other engine
     * failure is dropped as well, so the call never reports an error.
     */
    method GetCF(cf: string, key: Key, fault: bool) returns (value: Option<Value>, err: Option<Error>)
      ensures err == None
      ensures fault ==> value == None
      ensures !fault ==> value == Lookup(db, (cf, key))
    {
      var got := EngineGet(db, cf, key, fault);
      if got.1.Some? {
        if got.1.value == KeyNotFound {
          return None, None;
        }
      }
      return got.0, None;
    }

    /** A fresh ascending cursor over one column family of the current state. */
    method IterCF(cf: string) returns (it: CFIterator)
      ensures fresh(it)
      ensures it.cf == cf && it.view == db && it.keys == SortedKeys(db, cf) && it.Inv()
    {
      it := new CFIterator(cf, db);
    }
  }

  /**
   * The engine's per-family cursor over the state it was opened on: the
   * family's keys in ascending order and a position among them.
   */
  class CFIterator {
    const cf: string
    const view: Db
    const keys: seq<Key>
    var pos: nat

    /** The cursor stands on an item or just past the last, and every key it walks is stored. */
    ghost predicate Inv()
      reads this
    {
      pos <= |keys| && forall k :: k in keys ==> (cf, k) in view
    }

    constructor (cf: string, view: Db)
      ensures this.cf == cf && this.view == view && keys == SortedKeys(view, cf)
      ensures Inv() && pos == 0
    {
      this.cf := cf;
      this.view := view;
      keys := SortedKeys(view, cf);
      pos := 0;
    }

    /** The cursor stands on a stored item; otherwise it has walked past every key. */
    predicate Valid(): (b: bool)
      reads this
      ensures b && Inv() ==> pos < |keys| && (cf, keys[pos]) in view
      ensures !b && Inv() ==> pos == |keys|
    {
      pos < |keys|
    }

    /** Positions the cursor on the first key at or above `start`. */
    method Seek(start: Key)
      requires Inv()
      modifies this
      ensures Inv() && pos == SeekIndex(keys, start)
    {
      pos := SeekIndex(keys, start);
    }

    /** Advances to the next key. */
    method Next()
      requires Inv() && Valid()
      modifies this
      ensures Inv() && pos == old(pos) + 1
    {
      pos := pos + 1;
    }

    /** A copy of the current item's key. */
    function KeyCopy(): (k: Key)
      requires Inv() && Valid()
      reads this
      ensures (cf, k) in view
    {
      keys[pos]
    }

    /** A copy of the current item's value; fails exactly when `fault` holds. */
    method ValueCopy(fault: bool) returns (r: Result<Value>)
      requires Inv() && Valid()
      ensures fault ==> r == Err(CopyFault)
      ensures !fault ==> r == Ok(view[(cf, KeyCopy())])
    {
      if fault {
        return Err(CopyFault);
      }
      return Ok(view[(cf, keys[pos])]);
    }
  }
}
