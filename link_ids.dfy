/**
 * Ids in the store: the namespace test the generation phase applies to a
 * parent's id, the derivation of a linked object's id, and the check of that
 * id against the characters the store forbids.
 */
module LinkIds {

  /** `s.indexOf(sub) !== -1`: `sub` occurs somewhere in `s`. */
  predicate Contains(s: string, sub: string)
    decreases |s|
  {
    sub <= s || (s != [] && Contains(s[1..], sub))
  }

  /** An occurrence of `sub` at position `i` of `s` makes `Contains` hold. */
  lemma {:induction false} ContainsFrom(s: string, sub: string, i: int)
    requires 0 <= i <= |s| && sub <= s[i..]
    ensures Contains(s, sub)
    decreases i
  {
    if i == 0 {
      assert s[0..] == s;
    } else {
      assert s[1..][i - 1..] == s[i..];
      ContainsFrom(s[1..], sub, i - 1);
    }
  }

  /** When `Contains` holds, `sub` occurs at some position `i` of `s`. */
  lemma {:induction false} ContainsWitness(s: string, sub: string) returns (i: int)
    requires Contains(s, sub)
    ensures 0 <= i <= |s| && sub <= s[i..]
    decreases |s|
  {
    if sub <= s {
      i := 0;
      assert s[0..] == s;
    } else {
      var j := ContainsWitness(s[1..], sub);
      i := j + 1;
      assert s[1..][j..] == s[i..];
    }
  }

  /** Contains agrees with "sub is a prefix of some suffix of s". */
  lemma ContainsAt(s: string, sub: string)
    ensures Contains(s, sub) <==> exists i :: 0 <= i <= |s| && sub <= s[i..]
  {
    if Contains(s, sub) {
      var i := ContainsWitness(s, sub);
    }
    forall i | 0 <= i <= |s| && sub <= s[i..] ensures Contains(s, sub) {
      ContainsFrom(s, sub, i);
    }
  }

  /** A string whose first character is missing from `s` does not occur in `s`. */
  lemma {:induction false} NotContainsFirstChar(s: string, sub: string)
    requires sub != [] && sub[0] !in s
    ensures !Contains(s, sub)
  {
    if s != [] {
      assert s[0] in s;
      forall c | c in s[1..] ensures c in s {
        var i :| 0 <= i < |s[1..]| && s[1..][i] == c;
        assert s[i + 1] == c;
      }
      NotContainsFirstChar(s[1..], sub);
    }
  }

  /** The ids of the adapter's own objects, as `getAdapterObjectsAsync` lists them: `<namespace>.<rest>`. */
  predicate IsOwnId(ns: string, id: string)
  {
    ns + "." <= id
  }

  /** An own id contains the namespace, so the generation phase never takes it for a parent. */
  lemma OwnIdContainsNamespace(ns: string, id: string)
    requires IsOwnId(ns, id)
    ensures Contains(id, ns)
  {
    assert id[..|ns|] == (ns + ".")[..|ns|] == ns;
  }

  /**
   * `getLinkedObjectId`: the linked object's id is the namespace, a dot, and the
   * configured id, with no trimming or normalisation. It lies in the adapter's
   * own namespace and its local part gives back the configured id.
   */
  function LinkedObjectId(ns: string, id: string): (r: string)
    ensures IsOwnId(ns, r)
    ensures r[|ns| + 1..] == id
  {
    ns + "." + id
  }

  /** Different configured ids never derive the same linked id. */
  lemma LinkedObjectIdInjective(ns: string, a: string, b: string)
    requires LinkedObjectId(ns, a) == LinkedObjectId(ns, b)
    ensures a == b
  {
  }

  /** The characters of the pattern `[*?"'\[\]]`, which the store forbids in an id. */
  const IllegalChars: set<char> := {'*', '?', '"', '\'', '[', ']'}

  /** The regular expression test applied to a derived id. */
  predicate HasIllegalChar(s: string)
  {
    exists i :: 0 <= i < |s| && s[i] in IllegalChars
  }

  /**
   * The derived id is rejected exactly when the namespace or the configured id
   * holds a forbidden character (the joining dot is never one).
   */
  lemma LinkedObjectIdIllegalIff(ns: string, id: string)
    ensures HasIllegalChar(LinkedObjectId(ns, id)) <==> HasIllegalChar(ns) || HasIllegalChar(id)
  {
    var r := LinkedObjectId(ns, id);
    assert r == ns + "." + id;
    if HasIllegalChar(r) {
      var i :| 0 <= i < |r| && r[i] in IllegalChars;
      assert r[|ns|] == '.' && '.' !in IllegalChars;
      if i < |ns| {
        assert r[i] == ns[i];
      } else if i > |ns| {
        assert r[i] == id[i - |ns| - 1];
      }
    }
    if HasIllegalChar(ns) {
      var i :| 0 <= i < |ns| && ns[i] in IllegalChars;
      assert r[i] == ns[i];
    }
    if HasIllegalChar(id) {
      var i :| 0 <= i < |id| && id[i] in IllegalChars;
      assert r[|ns| + 1 + i] == id[i];
    }
  }
}
