/**
 * A localforage driver instance: the engine handle `_db`, the namespace prefix
 * `_keyPrefix` and the key codec closures fixed by `_initStorage`, and the
 * storage operations over them. The IPFS-repository driver and the level
 * datastore driver run the same code over different engine handles; the
 * IPFS-repository one first awaits its `_ready` promise, which in this
 * sequential model is already resolved when an operation starts.
 */
module Driver {

  import opened Wrappers
  import opened Values
  import opened KeyCodec
  import Engine
  import Namespace

  class KVDriver {
    /** `_config.name`. */
    const name: string
    /** `_db`: the engine handle (`repo.datastore`, or a level datastore). */
    const db: Engine.Datastore
    /** `_keyPrefix`. */
    const keyPrefix: string
    /** `serialize` / `deserialize`. */
    const codec: Codec

    predicate Valid()
    {
      ValidName(name) && keyPrefix == Prefix(name)
    }

    /**
     * `_initStorage`: takes the opened engine handle and derives the prefix
     * once; the store name must be alphanumeric with underscores.
     */
    constructor InitStorage(name: string, db: Engine.Datastore, codec: Codec)
      requires ValidName(name)
      ensures Valid()
      ensures this.name == name && this.db == db && this.codec == codec
      ensures keyPrefix == "/" + name + "/"
    {
      this.name := name;
      this.db := db;
      this.keyPrefix := "/" + name + "/";
      this.codec := codec;
    }

    /** Puts the serialized value under the native key and returns the value unchanged. */
    method SetItem(key: string, value: Value) returns (r: Value)
      requires Valid()
      modifies db
      ensures r == value
      ensures db.entries == Namespace.SetItem(old(db.entries), keyPrefix, key, codec.serialize(value))
    {
      var buf := codec.serialize(value);
      var k := ToKey(keyPrefix, key);
      db.Put(k, buf);
      r := value;
    }

    /** Reads the native key; a failed read (not found) gives null. */
    method GetItem(key: string) returns (r: Value)
      requires Valid()
      ensures r == Namespace.GetItem(codec, db.entries, keyPrefix, key)
      ensures ToKey(keyPrefix, key) !in db.entries ==> r == Null
      ensures ToKey(keyPrefix, key) in db.entries ==> r == codec.deserialize(db.entries[ToKey(keyPrefix, key)])
    {
      var k := ToKey(keyPrefix, key);
      var buf := db.Get(k);
      match buf
      case None =>
        r := Null;
      case Some(b) =>
        r := codec.deserialize(b);
    }

    /** Deletes the native key; an absent key is a no-op. */
    method RemoveItem(key: string)
      requires Valid()
      modifies db
      ensures db.entries == Namespace.RemoveItem(old(db.entries), keyPrefix, key)
    {
      var k := ToKey(keyPrefix, key);
      db.Delete(k);
    }

    /** Queries the prefix keys-only, collects one batch delete per result, then commits the batch. */
    method Clear()
      requires Valid()
      modifies db
      ensures db.entries == Namespace.Clear(old(db.entries), keyPrefix)
    {
      var q := db.Query(Engine.QueryArgs(keyPrefix, true, None, 0));
      var b := db.Batch();
      DeleteEach(b, q);
      Namespace.ClearByQuery(db.entries, keyPrefix);
      b.Commit();
    }

    /**
     * Queries the prefix with values and calls back once per result with the
     * deserialized value, the decoded key and a counter starting at 0; the
     * result is the sequence of those calls.
     */
    method Iterate() returns (calls: seq<Namespace.Call>)
      requires Valid()
      ensures calls == Namespace.Iteration(codec, db.entries, keyPrefix)
    {
      var q := db.Query(Engine.QueryArgs(keyPrefix, false, None, 0));
      Namespace.IterationByQuery(codec, db.entries, keyPrefix);
      calls := Replay(codec, keyPrefix, q);
    }

    /** Queries one key at offset `keyIndex`; '' when there is none. */
    method Key(keyIndex: nat) returns (key: string)
      requires Valid()
      ensures var ks := Namespace.Keys(db.entries, keyPrefix);
        key == if keyIndex < |ks| then ks[keyIndex] else ""
    {
      var q := db.Query(Engine.QueryArgs(keyPrefix, true, Some(1), keyIndex));
      Namespace.KeyByQuery(db.entries, keyPrefix, keyIndex);
      if |q| > 0 {
        key := FromKey(keyPrefix, q[0].key);
      } else {
        key := "";
      }
    }

    /** Queries the prefix keys-only and decodes every result, in order. */
    method Keys() returns (l: seq<string>)
      requires Valid()
      ensures l == Namespace.Keys(db.entries, keyPrefix)
    {
      var q := db.Query(Engine.QueryArgs(keyPrefix, true, None, 0));
      Namespace.KeysByQuery(db.entries, keyPrefix);
      l := DecodeEach(keyPrefix, q);
    }

    /** The length of keys(). */
    method Length() returns (n: nat)
      requires Valid()
      ensures n == |Namespace.Keys(db.entries, keyPrefix)|
      ensures n == |Engine.Matching(db.entries, keyPrefix)|
    {
      var l := Keys();
      n := |l|;
    }
  }
  /** The key-collecting loop of `keys`: one decoded key per query result, in order. */
  method DecodeEach(p: string, rs: seq<Engine.Entry>) returns (l: seq<string>)
    requires RegexLiteral(p)
    ensures l == Namespace.Decoded(p, rs)
  {
    l := [];
    for i := 0 to |rs|
      invariant |l| == i
      invariant forall j :: 0 <= j < i ==> l[j] == FromKey(p, rs[j].key)
    {
      l := l + [FromKey(p, rs[i].key)];
    }
  }

  /** The callback loop of `iterate`, with its own counter beside the position in the results. */
  method Replay(c: Codec, p: string, rs: seq<Engine.Entry>) returns (calls: seq<Namespace.Call>)
    requires RegexLiteral(p)
    requires forall i :: 0 <= i < |rs| ==> rs[i].value.Some?
    ensures calls == Namespace.Replayed(c, p, rs)
  {
    calls := [];
    var n := 0;
    for i := 0 to |rs|
      invariant n == i == |calls|
      invariant forall j :: 0 <= j < i ==>
        calls[j] == Namespace.Call(c.deserialize(rs[j].value.value), FromKey(p, rs[j].key), j)
    {
      var value := c.deserialize(rs[i].value.value);
      var key := FromKey(p, rs[i].key);
      calls := calls + [Namespace.Call(value, key, n)];
      n := n + 1;
    }
  }

  /** The delete-collecting loop of `clear`: one batch delete per query result, in order. */
  method DeleteEach(b: Engine.Batch, rs: seq<Engine.Entry>)
    modifies b
    ensures b.deletes == old(b.deletes) + Engine.ResultKeys(rs)
  {
    ghost var d0 := b.deletes;
    for i := 0 to |rs|
      invariant b.deletes == d0 + Engine.ResultKeys(rs[..i])
    {
      assert Engine.ResultKeys(rs[..i + 1]) == Engine.ResultKeys(rs[..i]) + [rs[i].key];
      b.Delete(rs[i].key);
    }
    assert rs[..|rs|] == rs;
  }
}
