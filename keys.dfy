/** A possibly absent value: Python's `None` or a string. */
module Optional {
  datatype Option<+T> = None | Some(value: T)
}

/**
 * Key comparison as the settings store does it: a name matches when its
 * lower-cased form equals the lower-cased form of the name asked for.
 */
module Keys {
  import opened Optional

  /**
   * Lower-cases one character. Python's `str.lower` follows the Unicode
   * case tables; this model folds only the ASCII letters 'A'..'Z'.
   */
  function Lower(c: char): char
  {
    if 'A' <= c <= 'Z' then (c as int + 32) as char else c
  }

  /** `s.lower()` under the ASCII folding of `Lower`; it keeps the length. */
  function LowerStr(s: string): (r: string)
    ensures |r| == |s|
  {
    seq(|s|, i requires 0 <= i < |s| => Lower(s[i]))
  }

  /** `a.lower() == b.lower()`. */
  predicate SameKey(a: string, b: string)
  {
    LowerStr(a) == LowerStr(b)
  }

  /** A name that lower-casing leaves as it is. */
  predicate IsLower(k: string)
  {
    LowerStr(k) == k
  }

  /** Lower-casing twice is lower-casing once. */
  lemma LowerStrTwice(s: string)
    ensures LowerStr(LowerStr(s)) == LowerStr(s)
  {
    assert forall i :: 0 <= i < |s| ==> LowerStr(LowerStr(s))[i] == Lower(Lower(s[i]));
  }

  /**
   * The position a `for ... if name.lower() == key_lower: ... break` scan
   * stops at: the first name matching `k` case-insensitively, if any.
   */
  function FirstMatch(keys: seq<string>, k: string): (r: Option<nat>)
    ensures r.Some? ==> r.value < |keys| && SameKey(keys[r.value], k)
    ensures r.Some? ==> forall m :: 0 <= m < r.value ==> !SameKey(keys[m], k)
    ensures r.None? ==> forall m :: 0 <= m < |keys| ==> !SameKey(keys[m], k)
    decreases |keys|
  {
    if keys == [] then None
    else if SameKey(keys[0], k) then Some(0)
    else match FirstMatch(keys[1..], k)
      case None => None
      case Some(j) => Some(j + 1)
  }

  /** The position of the first name equal to `k` exactly: a dictionary key look-up. */
  function IndexOf(keys: seq<string>, k: string): (r: Option<nat>)
    ensures r.Some? ==> r.value < |keys| && keys[r.value] == k
    ensures r.Some? ==> forall m :: 0 <= m < r.value ==> keys[m] != k
    ensures r.None? ==> forall m :: 0 <= m < |keys| ==> keys[m] != k
    decreases |keys|
  {
    if keys == [] then None
    else if keys[0] == k then Some(0)
    else match IndexOf(keys[1..], k)
      case None => None
      case Some(j) => Some(j + 1)
  }

  /**
   * Among names that are all lower-case already, the first case-insensitive
   * match of `k` is the first name equal to `k.lower()`.
   */
  lemma {:induction false} FirstMatchLowered(keys: seq<string>, k: string)
    requires forall m :: 0 <= m < |keys| ==> IsLower(keys[m])
    ensures FirstMatch(keys, k) == IndexOf(keys, LowerStr(k))
    decreases |keys|
  {
    if keys != [] {
      assert IsLower(keys[0]);
      assert forall m :: 0 <= m < |keys| - 1 ==> keys[1..][m] == keys[m + 1];
      FirstMatchLowered(keys[1..], k);
    }
  }

  /** Two keys that lower-case alike find the same first match. */
  lemma FirstMatchSameKey(keys: seq<string>, k1: string, k2: string)
    requires SameKey(k1, k2)
    ensures FirstMatch(keys, k1) == FirstMatch(keys, k2)
  {
    var r1, r2 := FirstMatch(keys, k1), FirstMatch(keys, k2);
    if r1.Some? {
      assert SameKey(keys[r1.value], k2);
    }
    if r2.Some? {
      assert SameKey(keys[r2.value], k1);
    }
  }

  /** Scanning one more name at the end only matters when nothing matched before. */
  lemma {:induction false} FirstMatchAppend(keys: seq<string>, k: string, q: string)
    ensures FirstMatch(keys + [k], q) ==
      if FirstMatch(keys, q).Some? then FirstMatch(keys, q)
      else if SameKey(k, q) then Some(|keys|) else None
    decreases |keys|
  {
    if keys == [] {
      assert [k][1..] == [];
    } else {
      assert (keys + [k])[0] == keys[0];
      assert (keys + [k])[1..] == keys[1..] + [k];
      FirstMatchAppend(keys[1..], k, q);
    }
  }

  /** Exact-key version of `FirstMatchAppend`. */
  lemma {:induction false} IndexOfAppend(keys: seq<string>, k: string, q: string)
    ensures IndexOf(keys + [k], q) ==
      if IndexOf(keys, q).Some? then IndexOf(keys, q)
      else if k == q then Some(|keys|) else None
    decreases |keys|
  {
    if keys == [] {
      assert [k][1..] == [];
    } else {
      assert (keys + [k])[0] == keys[0];
      assert (keys + [k])[1..] == keys[1..] + [k];
      IndexOfAppend(keys[1..], k, q);
    }
  }

  /**
   * The name a case-insensitive scan stops at is also the first one equal
   * to it exactly: an earlier equal name would have matched first.
   */
  lemma IndexOfFirstMatch(keys: seq<string>, k: string, i: nat)
    requires FirstMatch(keys, k) == Some(i)
    ensures IndexOf(keys, keys[i]) == Some(i)
  {
    assert forall m :: 0 <= m < i ==> keys[m] != keys[i];
  }

  /** A key that matches nothing case-insensitively is not present exactly either. */
  lemma IndexOfNoMatch(keys: seq<string>, k: string)
    requires FirstMatch(keys, k).None?
    ensures IndexOf(keys, k).None?
  {
    assert forall m :: 0 <= m < |keys| ==> keys[m] != k;
  }

  /** Only the empty name lower-cases to the empty name. */
  lemma SameKeyEmpty(a: string, b: string)
    requires SameKey(a, b) && b == ""
    ensures a == ""
  {
    assert |LowerStr(a)| == |LowerStr(b)|;
  }
}
