/**
 * The storage test flow of the repository, replayed against the driver's
 * contracts: an empty namespace, one complex value set, read and removed, five
 * keys `a`..`e` listed and iterated in order, and a clear. Also two drivers
 * sharing one engine handle under different names.
 */
module Scenario {

  import opened Values
  import opened KeyCodec
  import Order
  import Engine
  import Namespace
  import Driver

  /** Single-letter keys compare by their letter. */
  lemma LetterOrder(p: string)
    ensures Order.Less(p + "a", p + "b") && Order.Less(p + "b", p + "c")
    ensures Order.Less(p + "c", p + "d") && Order.Less(p + "d", p + "e")
  {
    Order.LessAfterCommonPrefix(p, "a", "b");
    Order.LessAfterCommonPrefix(p, "b", "c");
    Order.LessAfterCommonPrefix(p, "c", "d");
    Order.LessAfterCommonPrefix(p, "d", "e");
  }

  /** The native keys of `a`..`e` under one prefix, in ascending order. */
  lemma LettersSorted(p: string)
    ensures Order.StrictlySorted([p + "a", p + "b", p + "c", p + "d", p + "e"])
  {
    var s := [p + "a", p + "b", p + "c", p + "d", p + "e"];
    LetterOrder(p);
    forall i, j | 0 <= i < j < 5
      ensures Order.Less(s[i], s[j])
    {
      if j > i + 1 {
        ChainLess(s, i, j);
      }
    }
  }

  lemma {:induction false} ChainLess(s: seq<string>, i: nat, j: nat)
    requires i < j < |s|
    requires forall k :: 0 <= k < |s| - 1 ==> Order.Less(s[k], s[k + 1])
    ensures Order.Less(s[i], s[j])
    decreases j - i
  {
    if j > i + 1 {
      ChainLess(s, i + 1, j);
      Order.LessTransitive(s[i], s[i + 1], s[j]);
    }
  }

  /** `a`..`e` set, in order, into the engine's map under prefix p. */
  function SetLetters(m: map<string, Bytes>, p: string, b1: Bytes, b2: Bytes, b3: Bytes, b4: Bytes, b5: Bytes): map<string, Bytes>
  {
    Namespace.SetItem(Namespace.SetItem(Namespace.SetItem(Namespace.SetItem(Namespace.SetItem(
      m, p, "a", b1), p, "b", b2), p, "c", b3), p, "d", b4), p, "e", b5)
  }

  lemma LettersAreTheNamespace(m: map<string, Bytes>, p: string, b1: Bytes, b2: Bytes, b3: Bytes, b4: Bytes, b5: Bytes)
    requires Engine.Matching(m, p) == {}
    ensures Engine.Matching(SetLetters(m, p, b1, b2, b3, b4, b5), p) == {p + "a", p + "b", p + "c", p + "d", p + "e"}
  {
    var m' := SetLetters(m, p, b1, b2, b3, b4, b5);
    forall k | k in m' && p <= k
      ensures k in {p + "a", p + "b", p + "c", p + "d", p + "e"}
    {
      assert k !in m || !(p <= k);
    }
  }

  /** An enumeration of encoded keys decodes back to those keys. */
  lemma KeysDecode(m: map<string, Bytes>, p: string, keys: seq<string>)
    requires RegexLiteral(p)
    requires |Namespace.Enumeration(m, p)| == |keys|
    requires forall i :: 0 <= i < |keys| ==>
      Namespace.Enumeration(m, p)[i] == ToKey(p, keys[i]) && NoLineTerminator(keys[i])
    ensures Namespace.Keys(m, p) == keys
  {
    forall i | 0 <= i < |keys|
      ensures Namespace.Keys(m, p)[i] == keys[i]
    {
      DecodeEncode(p, keys[i]);
    }
  }

  /** The namespace's enumeration after setting `a`..`e` into it while empty. */
  lemma LettersEnumeration(m: map<string, Bytes>, p: string, b1: Bytes, b2: Bytes, b3: Bytes, b4: Bytes, b5: Bytes)
    requires Engine.Matching(m, p) == {}
    ensures Namespace.Enumeration(SetLetters(m, p, b1, b2, b3, b4, b5), p) == [p + "a", p + "b", p + "c", p + "d", p + "e"]
  {
    var m' := SetLetters(m, p, b1, b2, b3, b4, b5);
    var s := [p + "a", p + "b", p + "c", p + "d", p + "e"];
    LettersAreTheNamespace(m, p, b1, b2, b3, b4, b5);
    LettersSorted(p);
    assert forall x :: x in s <==> x in Engine.Matching(m', p);
    Order.OrderedOfSorted(s, Engine.Matching(m', p));
  }

  /**
   * Setting `a`..`e` into an empty namespace makes keys() list them in that
   * order, whatever else the engine holds.
   */
  lemma FiveKeysInOrder(m: map<string, Bytes>, name: string, b1: Bytes, b2: Bytes, b3: Bytes, b4: Bytes, b5: Bytes)
    requires ValidName(name)
    requires Engine.Matching(m, Prefix(name)) == {}
    ensures Namespace.Keys(SetLetters(m, Prefix(name), b1, b2, b3, b4, b5), Prefix(name)) == ["a", "b", "c", "d", "e"]
  {
    var p := Prefix(name);
    LettersEnumeration(m, p, b1, b2, b3, b4, b5);
    var letters := ["a", "b", "c", "d", "e"];
    assert forall i :: 0 <= i < 5 ==> NoLineTerminator(letters[i]);
    KeysDecode(SetLetters(m, p, b1, b2, b3, b4, b5), p, letters);
  }

  /** Facts about an empty namespace: what every read returns. */
  lemma EmptyNamespace(c: Codec, m: map<string, Bytes>, p: string)
    requires RegexLiteral(p) && Engine.Matching(m, p) == {}
    ensures Namespace.Keys(m, p) == [] && Namespace.Iteration(c, m, p) == []
    ensures forall key :: Namespace.GetItem(c, m, p, key) == Null
  {
    forall key
      ensures Namespace.GetItem(c, m, p, key) == Null
    {
      assert ToKey(p, key) !in Engine.Matching(m, p);
    }
  }

  /** The storage test flow, from a repository whose namespace is empty. */
  method StorageFlow(db: Engine.Datastore, codec: Codec, name: string, complex: Value)
    requires RoundTrips(codec) && ValidName(name)
    requires Engine.Matching(db.entries, Prefix(name)) == {}
    modifies db
    ensures db.entries == old(db.entries)
  {
    var s := new Driver.KVDriver.InitStorage(name, db, codec);
    var p := s.keyPrefix;
    EmptyNamespace(codec, db.entries, p);
    var keys := s.Keys();
    var k0 := s.Key(0);
    var k1 := s.Key(1);
    var n := s.Length();
    var calls := s.Iterate();
    assert keys == [] && k0 == "" && k1 == "" && n == 0 && calls == [];

    var v := s.GetItem("testkey");
    assert v == Null;
    v := s.SetItem("testkey", complex);
    ghost var mT := db.entries;
    assert v == complex;
    v := s.GetItem("testkey");
    assert v == complex;
    s.RemoveItem("testkey");
    v := s.GetItem("testkey");
    assert v == Null;

    ghost var m0 := db.entries;
    assert Engine.Matching(m0, p) == {} by {
      forall k | k in m0
        ensures !(p <= k)
      {
        assert k in old(db.entries) || k == ToKey(p, "testkey");
      }
    }
    v := s.SetItem("a", Number(1));
    v := s.SetItem("b", Number(2));
    v := s.SetItem("c", Number(3));
    v := s.SetItem("d", Number(4));
    v := s.SetItem("e", Number(5));
    ghost var bufs := [codec.serialize(Number(1)), codec.serialize(Number(2)), codec.serialize(Number(3)),
                       codec.serialize(Number(4)), codec.serialize(Number(5))];
    assert db.entries == SetLetters(m0, p, bufs[0], bufs[1], bufs[2], bufs[3], bufs[4]);
    FiveKeysInOrder(m0, name, bufs[0], bufs[1], bufs[2], bufs[3], bufs[4]);
    n := s.Length();
    keys := s.Keys();
    assert n == 5 && keys == ["a", "b", "c", "d", "e"];
    k0 := s.Key(0);
    k1 := s.Key(4);
    assert k0 == "a" && k1 == "e";
    calls := s.Iterate();
    Namespace.IterationFollowsKeys(codec, db.entries, p);
    assert |calls| == 5;
    assert calls[0].index == 0 && calls[0].key == "a";
    assert calls[4].index == 4 && calls[4].key == "e";

    ghost var m1 := db.entries;
    s.Clear();
    Namespace.ClearEmpties(codec, m1, p);
    keys := s.Keys();
    k0 := s.Key(0);
    n := s.Length();
    calls := s.Iterate();
    assert keys == [] && k0 == "" && n == 0 && calls == [];
    ClearLetters(m0, p, bufs[0], bufs[1], bufs[2], bufs[3], bufs[4]);
    Namespace.ClearAbsorbsRemove(mT, p, "testkey");
    Namespace.ClearAbsorbsSet(old(db.entries), p, "testkey", codec.serialize(complex));
    Namespace.ClearOfEmpty(old(db.entries), p);
  }

  /** clear discards the five letter sets. */
  lemma ClearLetters(m: map<string, Bytes>, p: string, b1: Bytes, b2: Bytes, b3: Bytes, b4: Bytes, b5: Bytes)
    ensures Namespace.Clear(SetLetters(m, p, b1, b2, b3, b4, b5), p) == Namespace.Clear(m, p)
  {
    var m1 := Namespace.SetItem(m, p, "a", b1);
    var m2 := Namespace.SetItem(m1, p, "b", b2);
    var m3 := Namespace.SetItem(m2, p, "c", b3);
    var m4 := Namespace.SetItem(m3, p, "d", b4);
    Namespace.ClearAbsorbsSet(m4, p, "e", b5);
    Namespace.ClearAbsorbsSet(m3, p, "d", b4);
    Namespace.ClearAbsorbsSet(m2, p, "c", b3);
    Namespace.ClearAbsorbsSet(m1, p, "b", b2);
    Namespace.ClearAbsorbsSet(m, p, "a", b1);
  }

  /** Two drivers over one engine handle: what one writes or clears, the other never sees. */
  method TwoNamespaces(db: Engine.Datastore, codec: Codec, n1: string, n2: string, key: string, value: Value)
    requires ValidName(n1) && ValidName(n2) && n1 != n2
    modifies db
    ensures Namespace.View(db.entries, Prefix(n2)) == Namespace.View(old(db.entries), Prefix(n2))
  {
    var s1 := new Driver.KVDriver.InitStorage(n1, db, codec);
    var s2 := new Driver.KVDriver.InitStorage(n2, db, codec);
    var keys := s2.Keys();
    var seen := s2.GetItem(key);
    var calls := s2.Iterate();

    ghost var m := db.entries;
    ghost var m0 := m;
    var _ := s1.SetItem(key, value);
    Namespace.SetIsolated(m, n1, n2, key, codec.serialize(value));
    Namespace.ViewDetermines(codec, db.entries, m, Prefix(n2));
    var keys' := s2.Keys();
    var seen' := s2.GetItem(key);
    var calls' := s2.Iterate();
    assert keys' == keys && seen' == seen && calls' == calls;

    m := db.entries;
    s1.Clear();
    Namespace.ClearIsolated(m, n1, n2);
    Namespace.ViewDetermines(codec, db.entries, m, Prefix(n2));
    keys' := s2.Keys();
    seen' := s2.GetItem(key);
    assert keys' == keys && seen' == seen;
    assert Namespace.View(m, Prefix(n2)) == Namespace.View(m0, Prefix(n2));
  }
}
