/**
 * What the driver operations do to, and read from, the engine's map, stated
 * as functions of that map and the namespace prefix. The driver methods are
 * proved against these; the lemmas here state what the operations promise:
 * a read miss is null, set/remove touch one native key, clear removes exactly
 * the namespace, enumeration is ordered and indexed from 0, and one
 * namespace's operations never reach another's entries.
 */
module Namespace {

  import opened Wrappers
  import opened Values
  import opened KeyCodec
  import Order
  import Engine

  /** One invocation of the iteration callback: `(value, key, iterationNumber)`. */
  datatype Call = Call(value: Value, key: string, index: nat)

  /** The namespace's native keys in the engine's order (what a prefix query yields). */
  function Enumeration(m: map<string, Bytes>, p: string): (e: seq<string>)
    ensures forall i :: 0 <= i < |e| ==> e[i] in m && p <= e[i]
  {
    var e := Order.Ordered(Engine.Matching(m, p));
    assert forall i :: 0 <= i < |e| ==> e[i] in Engine.Matching(m, p);
    e
  }

  /** An unwindowed prefix query yields the enumeration, with values unless keys-only. */
  lemma PrefixQuery(m: map<string, Bytes>, p: string, keysOnly: bool)
    ensures var rs := Engine.Select(m, Engine.QueryArgs(p, keysOnly, None, 0));
      var e := Enumeration(m, p);
      |rs| == |e| &&
      forall i :: 0 <= i < |rs| ==>
        rs[i].key == e[i] && rs[i].value == if keysOnly then None else Some(m[e[i]])
  {
  }

  /** A query at offset i with limit 1 yields the i-th key of the enumeration, if any. */
  lemma OffsetQuery(m: map<string, Bytes>, p: string, i: nat)
    ensures var rs := Engine.Select(m, Engine.QueryArgs(p, true, Some(1), i));
      var e := Enumeration(m, p);
      (|rs| > 0 <==> i < |e|) && (|rs| > 0 ==> rs[0].key == e[i])
  {
  }


  /** The part of the engine's map this namespace can see. */
  function View(m: map<string, Bytes>, p: string): map<string, Bytes>
  {
    map k | k in Engine.Matching(m, p) :: m[k]
  }

  /** `setItem`: the serialized value is put at the native key. */
  function SetItem(m: map<string, Bytes>, p: string, key: string, buf: Bytes): (r: map<string, Bytes>)
    ensures ToKey(p, key) in r && r[ToKey(p, key)] == buf
    ensures r - {ToKey(p, key)} == m - {ToKey(p, key)}
  {
    m[ToKey(p, key) := buf]
  }

  /** `removeItem`: the native key is deleted. */
  function RemoveItem(m: map<string, Bytes>, p: string, key: string): (r: map<string, Bytes>)
    ensures r.Keys == m.Keys - {ToKey(p, key)}
    ensures forall k :: k in r ==> r[k] == m[k]
  {
    m - {ToKey(p, key)}
  }

  /** `clear`: the old map minus exactly the keys that carry the prefix. */
  function Clear(m: map<string, Bytes>, p: string): (r: map<string, Bytes>)
    ensures forall k :: k in r <==> k in m && !(p <= k)
    ensures forall k :: k in r ==> r[k] == m[k]
  {
    m - Engine.Matching(m, p)
  }

  /** `getItem`: a miss is null; a hit is the deserialized stored bytes. */
  function GetItem(c: Codec, m: map<string, Bytes>, p: string, key: string): (v: Value)
    ensures v != Null ==> ToKey(p, key) in m
  {
    if ToKey(p, key) in m then c.deserialize(m[ToKey(p, key)]) else Null
  }

  /** The facade's `has`: `getItem(key) !== null`. */
  predicate Has(c: Codec, m: map<string, Bytes>, p: string, key: string)
    ensures Has(c, m, p, key) ==> ToKey(p, key) in m
  {
    GetItem(c, m, p, key) != Null
  }

  /** `keys`: the decoded native keys of the namespace, in query order. */
  function Keys(m: map<string, Bytes>, p: string): (ks: seq<string>)
    requires RegexLiteral(p)
    ensures |ks| == |Engine.Matching(m, p)|
  {
    var e := Enumeration(m, p);
    seq(|e|, i requires 0 <= i < |e| => FromKey(p, e[i]))
  }

  /** `iterate`: the callback invocations, one per namespaced entry, numbered from 0. */
  function Iteration(c: Codec, m: map<string, Bytes>, p: string): (calls: seq<Call>)
    requires RegexLiteral(p)
    ensures |calls| == |Engine.Matching(m, p)|
    ensures forall i :: 0 <= i < |calls| ==> calls[i].index == i
  {
    var e := Enumeration(m, p);
    seq(|e|, i requires 0 <= i < |e| => Call(c.deserialize(m[e[i]]), FromKey(p, e[i]), i))
  }

  /** The decoded keys of a list of query results, in order. */
  function Decoded(p: string, rs: seq<Engine.Entry>): seq<string>
    requires RegexLiteral(p)
  {
    seq(|rs|, i requires 0 <= i < |rs| => FromKey(p, rs[i].key))
  }

  /** The callback invocations for a list of query results that carry values. */
  function Replayed(c: Codec, p: string, rs: seq<Engine.Entry>): seq<Call>
    requires RegexLiteral(p)
    requires forall i :: 0 <= i < |rs| ==> rs[i].value.Some?
  {
    seq(|rs|, i requires 0 <= i < |rs| => Call(c.deserialize(rs[i].value.value), FromKey(p, rs[i].key), i))
  }

  /** Every application key stored in the namespace decodes (holds no line terminator). */
  ghost predicate Decodable(m: map<string, Bytes>, p: string)
  {
    forall k :: k in m && p <= k ==> NoLineTerminator(k[|p|..])
  }

  // ----- what the driver's queries yield -----

  /** Deleting the keys of a keys-only prefix query removes exactly the namespace. */
  lemma ClearByQuery(m: map<string, Bytes>, p: string)
    ensures var rs := Engine.Select(m, Engine.QueryArgs(p, true, None, 0));
      m - (set k | k in Engine.ResultKeys(rs)) == Clear(m, p)
  {
    var rs := Engine.Select(m, Engine.QueryArgs(p, true, None, 0));
    var e := Enumeration(m, p);
    PrefixQuery(m, p, true);
    assert Engine.ResultKeys(rs) == e;
    EnumerationCovers(m, p);
  }

  /** The enumeration holds every native key of the namespace. */
  lemma EnumerationCovers(m: map<string, Bytes>, p: string)
    ensures (set k | k in Enumeration(m, p)) == Engine.Matching(m, p)
  {
    var e := Order.Ordered(Engine.Matching(m, p));
    assert e == Enumeration(m, p);
  }

  /** Decoding a keys-only prefix query gives keys(). */
  lemma KeysByQuery(m: map<string, Bytes>, p: string)
    requires RegexLiteral(p)
    ensures Decoded(p, Engine.Select(m, Engine.QueryArgs(p, true, None, 0))) == Keys(m, p)
  {
    PrefixQuery(m, p, true);
  }

  /** A prefix query with values carries a value in every result, and replaying it gives iterate(). */
  lemma IterationByQuery(c: Codec, m: map<string, Bytes>, p: string)
    requires RegexLiteral(p)
    ensures var rs := Engine.Select(m, Engine.QueryArgs(p, false, None, 0));
      (forall i :: 0 <= i < |rs| ==> rs[i].value.Some?) && Replayed(c, p, rs) == Iteration(c, m, p)
  {
    PrefixQuery(m, p, false);
  }

  /** Decoding the first result of a one-key query at an offset gives that entry of keys(), or ''. */
  lemma KeyByQuery(m: map<string, Bytes>, p: string, i: nat)
    requires RegexLiteral(p)
    ensures var rs := Engine.Select(m, Engine.QueryArgs(p, true, Some(1), i));
      var ks := Keys(m, p);
      (if |rs| > 0 then FromKey(p, rs[0].key) else "") == (if i < |ks| then ks[i] else "")
  {
    OffsetQuery(m, p, i);
  }

  // ----- single-key operations -----

  /** After set, get returns the round-tripped value; under a lossless codec, the value itself. */
  lemma GetAfterSet(c: Codec, m: map<string, Bytes>, p: string, key: string, v: Value)
    ensures GetItem(c, SetItem(m, p, key, c.serialize(v)), p, key) == c.deserialize(c.serialize(v))
    ensures RoundTrips(c) ==> GetItem(c, SetItem(m, p, key, c.serialize(v)), p, key) == v
  {
  }

  /** set changes the entry at its native key and no other. */
  lemma SetLeavesOthers(m: map<string, Bytes>, p: string, key: string, buf: Bytes, k: string)
    requires k != ToKey(p, key)
    ensures k in SetItem(m, p, key, buf) <==> k in m
    ensures k in m ==> SetItem(m, p, key, buf)[k] == m[k]
  {
  }

  /** A later set on the same key replaces the earlier one. */
  lemma SetOverwrites(m: map<string, Bytes>, p: string, key: string, b1: Bytes, b2: Bytes)
    ensures SetItem(SetItem(m, p, key, b1), p, key, b2) == SetItem(m, p, key, b2)
  {
  }

  /** A missing key reads as null, and `has` is false. */
  lemma MissIsNull(c: Codec, m: map<string, Bytes>, p: string, key: string)
    requires ToKey(p, key) !in m
    ensures GetItem(c, m, p, key) == Null && !Has(c, m, p, key)
  {
  }

  /** Under a lossless codec, `has` after a set is true exactly when the value set is not null. */
  lemma HasAfterSet(c: Codec, m: map<string, Bytes>, p: string, key: string, v: Value)
    requires RoundTrips(c)
    ensures Has(c, SetItem(m, p, key, c.serialize(v)), p, key) <==> v != Null
  {
  }

  /** After remove, get is null. */
  lemma GetAfterRemove(c: Codec, m: map<string, Bytes>, p: string, key: string)
    ensures GetItem(c, RemoveItem(m, p, key), p, key) == Null
  {
  }

  /** remove changes the entry at its native key and no other. */
  lemma RemoveLeavesOthers(m: map<string, Bytes>, p: string, key: string, k: string)
    requires k != ToKey(p, key)
    ensures k in RemoveItem(m, p, key) <==> k in m
    ensures k in m ==> RemoveItem(m, p, key)[k] == m[k]
  {
  }

  // ----- clear -----

  /** clear keeps exactly the entries outside the namespace, unchanged. */
  lemma ClearKeepsOutside(m: map<string, Bytes>, p: string)
    ensures forall k :: k in Clear(m, p) <==> k in m && !(p <= k)
    ensures forall k :: k in Clear(m, p) ==> Clear(m, p)[k] == m[k]
  {
  }

  /** clear discards what a set in the namespace did. */
  lemma ClearAbsorbsSet(m: map<string, Bytes>, p: string, key: string, buf: Bytes)
    ensures Clear(SetItem(m, p, key, buf), p) == Clear(m, p)
  {
    assert p <= ToKey(p, key);
  }

  /** clear discards what a remove in the namespace did. */
  lemma ClearAbsorbsRemove(m: map<string, Bytes>, p: string, key: string)
    ensures Clear(RemoveItem(m, p, key), p) == Clear(m, p)
  {
    assert p <= ToKey(p, key);
  }

  /** clear of an empty namespace changes nothing. */
  lemma ClearOfEmpty(m: map<string, Bytes>, p: string)
    requires Engine.Matching(m, p) == {}
    ensures Clear(m, p) == m
  {
  }

  /** After clear the namespace is empty: no keys, length 0, nothing to iterate. */
  lemma ClearEmpties(c: Codec, m: map<string, Bytes>, p: string)
    requires RegexLiteral(p)
    ensures Keys(Clear(m, p), p) == []
    ensures |Keys(Clear(m, p), p)| == 0
    ensures Iteration(c, Clear(m, p), p) == []
  {
    assert Engine.Matching(Clear(m, p), p) == {};
  }

  // ----- enumeration -----

  /** `length` counts the namespaced entries. */
  lemma LengthCountsEntries(m: map<string, Bytes>, p: string)
    requires RegexLiteral(p)
    ensures |Keys(m, p)| == |Engine.Matching(m, p)|
  {
  }

  /**
   * When every stored key decodes, keys() lists exactly the stored application
   * keys, each once, in ascending order.
   */
  lemma KeysAreStoredKeys(m: map<string, Bytes>, p: string)
    requires RegexLiteral(p) && Decodable(m, p)
    ensures forall k :: k in Keys(m, p) <==> ToKey(p, k) in m
    ensures Order.StrictlySorted(Keys(m, p))
  {
    var e, ks := Enumeration(m, p), Keys(m, p);
    forall k
      ensures k in ks <==> ToKey(p, k) in m
    {
      if ToKey(p, k) in m {
        assert ToKey(p, k) in Engine.Matching(m, p);
        var i :| 0 <= i < |e| && e[i] == ToKey(p, k);
        KeyEncodesNative(m, p, i);
        ToKeyInjective(p, k, ks[i]);
      } else if k in ks {
        var i :| 0 <= i < |ks| && ks[i] == k;
        KeyEncodesNative(m, p, i);
      }
    }
    forall i, j | 0 <= i < j < |ks|
      ensures Order.Less(ks[i], ks[j])
    {
      KeyEncodesNative(m, p, i);
      KeyEncodesNative(m, p, j);
      Order.LessAfterCommonPrefix(p, ks[i], ks[j]);
    }
  }

  /** When every stored key decodes, each native key enumerated is the encoding of its entry in keys(). */
  lemma KeyEncodesNative(m: map<string, Bytes>, p: string, i: nat)
    requires RegexLiteral(p) && Decodable(m, p)
    requires i < |Enumeration(m, p)|
    ensures i < |Keys(m, p)| && Enumeration(m, p)[i] == ToKey(p, Keys(m, p)[i])
  {
    var n := Enumeration(m, p)[i];
    assert n == p + n[|p|..];
  }

  /**
   * iterate calls back once per entry of keys(), in the same order, with
   * indices 0..n-1; when every stored key decodes, the value passed is what
   * getItem returns for that key.
   */
  lemma IterationFollowsKeys(c: Codec, m: map<string, Bytes>, p: string)
    requires RegexLiteral(p)
    ensures |Iteration(c, m, p)| == |Keys(m, p)|
    ensures forall i :: 0 <= i < |Keys(m, p)| ==>
      Iteration(c, m, p)[i].index == i && Iteration(c, m, p)[i].key == Keys(m, p)[i]
    ensures Decodable(m, p) ==> forall i :: 0 <= i < |Keys(m, p)| ==>
      Iteration(c, m, p)[i].value == GetItem(c, m, p, Keys(m, p)[i])
  {
    var ks := Keys(m, p);
    if Decodable(m, p) {
      forall i | 0 <= i < |ks|
        ensures Iteration(c, m, p)[i].value == GetItem(c, m, p, ks[i])
      {
        KeyEncodesNative(m, p, i);
      }
    }
  }

  // ----- isolation between namespaces -----

  /** Equal views hold the same native keys and the same bytes under them. */
  lemma SameView(m1: map<string, Bytes>, m2: map<string, Bytes>, p: string)
    requires View(m1, p) == View(m2, p)
    ensures Engine.Matching(m1, p) == Engine.Matching(m2, p)
    ensures forall k :: k in m1 && p <= k ==> m1[k] == m2[k]
  {
    assert Engine.Matching(m1, p) == View(m1, p).Keys;
    assert Engine.Matching(m2, p) == View(m2, p).Keys;
    forall k | k in m1 && p <= k
      ensures m1[k] == m2[k]
    {
      assert m1[k] == View(m1, p)[k] == View(m2, p)[k] == m2[k];
    }
  }

  /** What a namespace's reads return depends on its own view only. */
  lemma ViewDetermines(c: Codec, m1: map<string, Bytes>, m2: map<string, Bytes>, p: string)
    requires RegexLiteral(p)
    requires View(m1, p) == View(m2, p)
    ensures Keys(m1, p) == Keys(m2, p)
    ensures Iteration(c, m1, p) == Iteration(c, m2, p)
    ensures forall key :: GetItem(c, m1, p, key) == GetItem(c, m2, p, key)
  {
    SameView(m1, m2, p);
    var e := Enumeration(m1, p);
    assert e == Enumeration(m2, p);
    forall key
      ensures GetItem(c, m1, p, key) == GetItem(c, m2, p, key)
    {
      var k := ToKey(p, key);
      assert k in m1 <==> k in Engine.Matching(m1, p);
      assert k in m2 <==> k in Engine.Matching(m2, p);
    }
  }

  /** set in one namespace leaves every other namespace's view unchanged. */
  lemma SetIsolated(m: map<string, Bytes>, n1: string, n2: string, key: string, buf: Bytes)
    requires ValidName(n1) && ValidName(n2) && n1 != n2
    ensures View(SetItem(m, Prefix(n1), key, buf), Prefix(n2)) == View(m, Prefix(n2))
  {
    NamespacesDisjoint(n1, n2, ToKey(Prefix(n1), key));
  }

  /** remove in one namespace leaves every other namespace's view unchanged. */
  lemma RemoveIsolated(m: map<string, Bytes>, n1: string, n2: string, key: string)
    requires ValidName(n1) && ValidName(n2) && n1 != n2
    ensures View(RemoveItem(m, Prefix(n1), key), Prefix(n2)) == View(m, Prefix(n2))
  {
    NamespacesDisjoint(n1, n2, ToKey(Prefix(n1), key));
  }

  /** clear of one namespace leaves every other namespace's view unchanged. */
  lemma ClearIsolated(m: map<string, Bytes>, n1: string, n2: string)
    requires ValidName(n1) && ValidName(n2) && n1 != n2
    ensures View(Clear(m, Prefix(n1)), Prefix(n2)) == View(m, Prefix(n2))
  {
    forall k | k in m && Prefix(n2) <= k
      ensures !(Prefix(n1) <= k)
    {
      NamespacesDisjoint(n2, n1, k);
    }
  }
}
