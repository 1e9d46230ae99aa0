/**
 * The namespace key codec each driver builds in `_initStorage`: the native key
 * of an application key is the namespace prefix `'/' + name + '/'` followed by
 * the key, and decoding applies the anchored pattern `^<prefix>(.*)$`, giving
 * '' when it does not match. The engine's Key class is taken to be the
 * identity on key strings.
 */
module KeyCodec {

  /** What a store name may contain: letters, digits and underscores. */
  predicate IsNameChar(c: char)
  {
    ('a' <= c <= 'z') || ('A' <= c <= 'Z') || ('0' <= c <= '9') || c == '_'
  }

  predicate ValidName(name: string)
  {
    forall i :: 0 <= i < |name| ==> IsNameChar(name[i])
  }

  /** The characters a regular expression's `.` does not match. */
  predicate IsLineTerminator(c: char)
  {
    c == '\n' || c == '\r' || c == '\U{2028}' || c == '\U{2029}'
  }

  predicate NoLineTerminator(s: string)
  {
    forall i :: 0 <= i < |s| ==> !IsLineTerminator(s[i])
  }

  /** The characters that are not literal in a regular expression. */
  predicate IsRegexSpecial(c: char)
  {
    c in "\\^$.|?*+()[]{}"
  }

  /** A string that, used as a regular expression, matches only itself. */
  predicate RegexLiteral(p: string)
  {
    forall i :: 0 <= i < |p| ==> !IsRegexSpecial(p[i])
  }

  /** `'/' + name + '/'`. */
  function Prefix(name: string): (p: string)
    ensures |p| == |name| + 2 && p[0] == '/' && p[|p| - 1] == '/'
    ensures p[1..|p| - 1] == name
    ensures ValidName(name) ==> RegexLiteral(p)
  {
    "/" + name + "/"
  }

  /** `_toKeyClass`: the native key of an application key. */
  function ToKey(prefix: string, key: string): (native: string)
    ensures prefix <= native && native[|prefix|..] == key
  {
    prefix + key
  }

  /**
   * `_fromKeyClass`: the pattern `^<prefix>(.*)$` matches exactly when the
   * native key starts with the prefix and the rest holds no line terminator;
   * the result is then that rest, and '' otherwise.
   */
  function FromKey(prefix: string, native: string): (key: string)
    requires RegexLiteral(prefix)
    ensures key == "" || native == ToKey(prefix, key)
    ensures NoLineTerminator(key)
  {
    if prefix <= native && NoLineTerminator(native[|prefix|..]) then native[|prefix|..] else ""
  }

  /** Decoding undoes encoding for a key without line terminators. */
  lemma DecodeEncode(prefix: string, key: string)
    requires RegexLiteral(prefix)
    requires NoLineTerminator(key)
    ensures FromKey(prefix, ToKey(prefix, key)) == key
  {
  }

  /** A native key outside the namespace decodes to the sentinel ''. */
  lemma DecodeForeign(prefix: string, native: string)
    requires RegexLiteral(prefix)
    requires !(prefix <= native)
    ensures FromKey(prefix, native) == ""
  {
  }

  /** A key holding a line terminator is stored under its own native key but decodes to ''. */
  lemma DecodeLineTerminator(prefix: string, key: string)
    requires RegexLiteral(prefix)
    requires !NoLineTerminator(key)
    ensures FromKey(prefix, ToKey(prefix, key)) == ""
  {
  }

  /** Distinct application keys of one namespace have distinct native keys. */
  lemma ToKeyInjective(prefix: string, k1: string, k2: string)
    requires ToKey(prefix, k1) == ToKey(prefix, k2)
    ensures k1 == k2
  {
    assert k1 == ToKey(prefix, k1)[|prefix|..];
  }

  /** Two prefixes of one string are comparable. */
  lemma PrefixesOfOneString(p: string, q: string, s: string)
    requires p <= s && q <= s && |p| <= |q|
    ensures p <= q
  {
    assert p == s[..|p|] && q == s[..|q|];
    assert q[..|p|] == p;
  }

  /**
   * The trailing '/' ends the name: the prefix of one valid name is never a
   * prefix of another's.
   */
  lemma PrefixesIncomparable(n1: string, n2: string)
    requires ValidName(n1) && ValidName(n2) && n1 != n2
    ensures !(Prefix(n1) <= Prefix(n2))
  {
    var p1, p2 := Prefix(n1), Prefix(n2);
    if |n1| == |n2| {
      var i :| 0 <= i < |n1| && n1[i] != n2[i];
      assert p1[i + 1] == n1[i] && p2[i + 1] == n2[i];
    } else if |n1| < |n2| {
      assert p2[|n1| + 1] == n2[|n1|];
      assert IsNameChar(p2[|n1| + 1]) && p1[|n1| + 1] == '/';
    }
  }

  /** A native key belongs to at most one namespace. */
  lemma NamespacesDisjoint(n1: string, n2: string, native: string)
    requires ValidName(n1) && ValidName(n2) && n1 != n2
    requires Prefix(n1) <= native
    ensures !(Prefix(n2) <= native)
  {
    if Prefix(n2) <= native {
      if |Prefix(n1)| <= |Prefix(n2)| {
        PrefixesOfOneString(Prefix(n1), Prefix(n2), native);
        PrefixesIncomparable(n1, n2);
      } else {
        PrefixesOfOneString(Prefix(n2), Prefix(n1), native);
        PrefixesIncomparable(n2, n1);
      }
    }
  }
}
