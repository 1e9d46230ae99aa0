/**
 * The ordered key-value engine the drivers run over (a level datastore, or the
 * datastore inside an IPFS repository), reduced to the five calls the drivers
 * use: get, put, delete, query and batch. Keys are the native key strings.
 * The engine itself is not part of this model; this module states only the
 * behaviour the drivers rely on.
 */
module Engine {

  import opened Wrappers
  import opened Values
  import Order

  /** The query options the drivers pass: `{ prefix, keysOnly, limit, offset }`. */
  datatype QueryArgs = QueryArgs(prefix: string, keysOnly: bool, limit: Option<nat>, offset: nat)

  /** One query result; `value` is absent for a keys-only query. */
  datatype Entry = Entry(key: string, value: Option<Bytes>)

  /** The stored keys that start with `prefix`. */
  function Matching(m: map<string, Bytes>, prefix: string): (s: set<string>)
    ensures forall k :: k in s <==> k in m && prefix <= k
  {
    set k | k in m && prefix <= k
  }

  /** Skip `offset` keys, then keep at most `limit` of the rest. */
  function Window(ks: seq<string>, offset: nat, limit: Option<nat>): (w: seq<string>)
    ensures forall i :: 0 <= i < |w| ==> offset + i < |ks| && w[i] == ks[offset + i]
    ensures limit.Some? ==> |w| <= limit.value
    ensures offset < |ks| && limit != Some(0) ==> |w| > 0
    ensures limit.None? && offset <= |ks| ==> |w| == |ks| - offset
    ensures limit.Some? && offset <= |ks| ==>
      |w| == if limit.value <= |ks| - offset then limit.value else |ks| - offset
    ensures offset > |ks| ==> w == []
  {
    var rest := if offset <= |ks| then ks[offset..] else [];
    match limit
    case None => rest
    case Some(n) => if n <= |rest| then rest[..n] else rest
  }

  /** The results of a query: the matching keys in the natural order, windowed. */
  function Select(m: map<string, Bytes>, q: QueryArgs): (rs: seq<Entry>)
    ensures var w := Window(Order.Ordered(Matching(m, q.prefix)), q.offset, q.limit);
      |rs| == |w| &&
      forall i :: 0 <= i < |rs| ==>
        rs[i].key == w[i] && rs[i].key in m &&
        rs[i].value == if q.keysOnly then None else Some(m[w[i]])
  {
    var ks := Order.Ordered(Matching(m, q.prefix));
    var w := Window(ks, q.offset, q.limit);
    seq(|w|, i requires 0 <= i < |w| => Entry(w[i], if q.keysOnly then None else Some(m[w[i]])))
  }

  /** The native keys of a list of query results, in order. */
  function ResultKeys(rs: seq<Entry>): (ks: seq<string>)
    ensures |ks| == |rs|
  {
    seq(|rs|, i requires 0 <= i < |rs| => rs[i].key)
  }

  /** The native-key → bytes map held by one engine handle. */
  class Datastore {
    var entries: map<string, Bytes>

    constructor Open(initial: map<string, Bytes>)
      ensures entries == initial
    {
      entries := initial;
    }

    /** A miss is None (the engine's NotFoundError). */
    method Get(key: string) returns (r: Option<Bytes>)
      ensures key in entries ==> r == Some(entries[key])
      ensures key !in entries ==> r == None
    {
      if key in entries {
        r := Some(entries[key]);
      } else {
        r := None;
      }
    }

    method Put(key: string, value: Bytes)
      modifies this
      ensures entries == old(entries)[key := value]
    {
      entries := entries[key := value];
    }

    /** Deleting an absent key changes nothing. */
    method Delete(key: string)
      modifies this
      ensures entries == old(entries) - {key}
    {
      entries := entries - {key};
    }

    method Query(q: QueryArgs) returns (rs: seq<Entry>)
      ensures rs == Select(entries, q)
    {
      rs := Select(entries, q);
    }

    method Batch() returns (b: Batch)
      ensures fresh(b) && b.store == this && b.deletes == []
    {
      b := new Batch(this);
    }
  }

  /** A batch of deletions, applied to its store in one step by Commit. */
  class Batch {
    const store: Datastore
    var deletes: seq<string>

    constructor (store: Datastore)
      ensures this.store == store && deletes == []
    {
      this.store := store;
      deletes := [];
    }

    method Delete(key: string)
      modifies this
      ensures deletes == old(deletes) + [key]
    {
      deletes := deletes + [key];
    }

    method Commit()
      modifies store
      ensures store.entries == old(store.entries) - (set k | k in deletes)
    {
      store.entries := store.entries - (set k | k in deletes);
    }
  }
}
