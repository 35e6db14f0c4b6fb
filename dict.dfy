/**
  Ordered dictionaries with the semantics of a JavaScript plain object used as a
  string-keyed table. An entry sequence `seq<(K, V)>` records both the contents
  and the order in which `Object.values` enumerates them:
  - assigning to a key that is present replaces its value and keeps its position;
  - assigning to a new key appends it;
  - `delete` removes the key and leaves the order of the others alone.
  A JavaScript object never holds a key twice; `UniqueKeys` states that.

  The operations carry small contracts; what they do to keys, values and order
  is stated by the lemmas after them.
*/
module Dict {

  datatype Option<+T> = None | Some(value: T)

  /** No key occurs twice in the entry sequence. */
  predicate UniqueKeys<K(==), V>(s: seq<(K, V)>)
  {
    forall i, j :: 0 <= i < j < |s| ==> s[i].0 != s[j].0
  }

  /** The set of keys present (`Object.keys`, as a set). */
  function Keys<K(==), V>(s: seq<(K, V)>): set<K>
  {
    set i | 0 <= i < |s| :: s[i].0
  }

  /** The values in entry order (`Object.values`). */
  function Values<K, V>(s: seq<(K, V)>): (r: seq<V>)
    ensures |r| == |s|
    ensures forall i :: 0 <= i < |s| ==> r[i] == s[i].1
  {
    if s == [] then [] else [s[0].1] + Values(s[1..])
  }

  /** Property lookup `o[k]`; `None` stands for `undefined`. */
  function Get<K(==), V>(s: seq<(K, V)>, k: K): Option<V>
  {
    if s == [] then None
    else if s[0].0 == k then Some(s[0].1)
    else Get(s[1..], k)
  }

  /** Lookup with a default for an absent key. */
  function GetOr<K(==), V>(s: seq<(K, V)>, k: K, default: V): V
  {
    match Get(s, k)
    case Some(v) => v
    case None => default
  }

  /** Property assignment `o[k] = v`. */
  function Put<K(==), V>(s: seq<(K, V)>, k: K, v: V): seq<(K, V)>
  {
    if s == [] then [(k, v)]
    else if s[0].0 == k then [(k, v)] + s[1..]
    else [s[0]] + Put(s[1..], k, v)
  }

  /** `delete o[k]` for every `k` in `ks`. */
  function Without<K(==), V>(s: seq<(K, V)>, ks: set<K>): seq<(K, V)>
  {
    if s == [] then []
    else if s[0].0 in ks then Without(s[1..], ks)
    else [s[0]] + Without(s[1..], ks)
  }

  lemma KeysCons<K, V>(s: seq<(K, V)>)
    requires s != []
    ensures Keys(s) == {s[0].0} + Keys(s[1..])
  {
    assert forall i :: 1 <= i < |s| ==> s[i] == s[1..][i - 1];
    assert forall j :: 0 <= j < |s| - 1 ==> s[1..][j] == s[j + 1];
  }

  lemma UniqueTail<K, V>(s: seq<(K, V)>)
    requires UniqueKeys(s) && s != []
    ensures UniqueKeys(s[1..]) && s[0].0 !in Keys(s[1..])
  {
    assert forall j :: 0 <= j < |s| - 1 ==> s[1..][j] == s[j + 1];
  }

  /** A lookup finds a value exactly for the keys present. */
  lemma {:induction false} GetKeys<K, V>(s: seq<(K, V)>, k: K)
    ensures Get(s, k).Some? <==> k in Keys(s)
  {
    if s != [] {
      KeysCons(s);
      GetKeys(s[1..], k);
    }
  }

  /** A lookup that finds a value finds it in an entry: the first one with that key. */
  lemma {:induction false} GetFound<K, V>(s: seq<(K, V)>, k: K)
    requires Get(s, k).Some?
    ensures exists i :: 0 <= i < |s| && s[i] == (k, Get(s, k).value) && forall j :: 0 <= j < i ==> s[j].0 != k
  {
    if s[0].0 != k {
      GetFound(s[1..], k);
      var i :| 0 <= i < |s[1..]| && s[1..][i] == (k, Get(s[1..], k).value) && forall j :: 0 <= j < i ==> s[1..][j].0 != k;
      assert s[i + 1] == (k, Get(s, k).value);
    }
  }

  /** After `o[k] = v`, `o[k]` is `v` and every other key reads as before. */
  lemma {:induction false} GetPut<K, V>(s: seq<(K, V)>, k: K, v: V, k': K)
    ensures Get(Put(s, k, v), k') == if k' == k then Some(v) else Get(s, k')
  {
    if s != [] && s[0].0 != k {
      GetPut(s[1..], k, v, k');
    }
  }

  /** Two assignments in a row: the later one wins on its key, the earlier one on its own. */
  lemma GetPutPut<K, V>(s: seq<(K, V)>, k1: K, v1: V, k2: K, v2: V, k: K)
    ensures Get(Put(Put(s, k1, v1), k2, v2), k) ==
      if k == k2 then Some(v2) else if k == k1 then Some(v1) else Get(s, k)
  {
    GetPut(Put(s, k1, v1), k2, v2, k);
    GetPut(s, k1, v1, k);
  }

  /** Assignment adds `k` to the keys and no other key. */
  lemma {:induction false} KeysPut<K, V>(s: seq<(K, V)>, k: K, v: V)
    ensures Keys(Put(s, k, v)) == Keys(s) + {k}
  {
    if s == [] {
      assert Put(s, k, v)[0].0 == k;
    } else {
      KeysCons(s);
      KeysCons(Put(s, k, v));
      if s[0].0 != k {
        KeysPut(s[1..], k, v);
      }
    }
  }

  /**
    Assignment to a new key appends an entry; assignment to a present key keeps
    the length and the key at every position.
  */
  lemma {:induction false} PutShape<K, V>(s: seq<(K, V)>, k: K, v: V)
    ensures k !in Keys(s) ==> Put(s, k, v) == s + [(k, v)]
    ensures k in Keys(s) ==> |Put(s, k, v)| == |s| && forall i :: 0 <= i < |s| ==> Put(s, k, v)[i].0 == s[i].0
  {
    if s != [] {
      KeysCons(s);
      if s[0].0 != k {
        PutShape(s[1..], k, v);
      }
    }
  }

  /** Every key keeps its position under assignment. */
  lemma PutKeepsOrder<K, V>(s: seq<(K, V)>, k: K, v: V)
    ensures |Put(s, k, v)| >= |s| && forall i :: 0 <= i < |s| ==> Put(s, k, v)[i].0 == s[i].0
  {
    PutShape(s, k, v);
    if k !in Keys(s) {
      assert forall i :: 0 <= i < |s| ==> (s + [(k, v)])[i] == s[i];
    }
  }

  /** Assignment never introduces a repeated key. */
  lemma {:induction false} PutUnique<K, V>(s: seq<(K, V)>, k: K, v: V)
    requires UniqueKeys(s)
    ensures UniqueKeys(Put(s, k, v))
  {
    if s != [] {
      UniqueTail(s);
      if s[0].0 != k {
        PutUnique(s[1..], k, v);
        var t := Put(s[1..], k, v);
        KeysPut(s[1..], k, v);
        assert forall j :: 0 <= j < |t| ==> t[j].0 in Keys(t);
      } else {
        assert forall j :: 1 <= j < |s| ==> s[j].0 in Keys(s[1..]) by {
          assert forall j :: 1 <= j < |s| ==> s[j] == s[1..][j - 1];
        }
      }
    }
  }

  /** Overwriting an existing key keeps that entry's position. */
  lemma {:induction false} PutOverwrites<K, V>(s: seq<(K, V)>, k: K, v: V, i: nat)
    requires UniqueKeys(s) && i < |s| && s[i].0 == k
    ensures Put(s, k, v) == s[i := (k, v)]
  {
    if i > 0 {
      UniqueTail(s);
      PutOverwrites(s[1..], k, v, i - 1);
      assert s[1..][i - 1 := (k, v)] == s[i := (k, v)][1..];
    }
  }

  /** A second assignment to the same key wins; in particular assignment is idempotent. */
  lemma {:induction false} PutPut<K, V>(s: seq<(K, V)>, k: K, v: V, w: V)
    ensures Put(Put(s, k, v), k, w) == Put(s, k, w)
  {
    if s != [] && s[0].0 != k {
      PutPut(s[1..], k, v, w);
    }
  }

  /** Assigning a key the value it already holds changes nothing. */
  lemma {:induction false} PutSame<K, V>(s: seq<(K, V)>, k: K)
    requires Get(s, k).Some?
    ensures Put(s, k, Get(s, k).value) == s
  {
    if s[0].0 != k {
      PutSame(s[1..], k);
    }
  }

  /** After deleting `ks`, exactly the keys outside `ks` remain, with their values. */
  lemma {:induction false} GetWithout<K, V>(s: seq<(K, V)>, ks: set<K>, k: K)
    ensures Get(Without(s, ks), k) == if k in ks then None else Get(s, k)
  {
    if s != [] {
      GetWithout(s[1..], ks, k);
    }
  }

  /** Deletion removes exactly the deleted keys. */
  lemma {:induction false} KeysWithout<K, V>(s: seq<(K, V)>, ks: set<K>)
    ensures Keys(Without(s, ks)) == Keys(s) - ks
  {
    if s != [] {
      KeysCons(s);
      KeysWithout(s[1..], ks);
      if s[0].0 !in ks {
        KeysCons(Without(s, ks));
      }
    }
  }

  /** Deletion never introduces a repeated key. */
  lemma {:induction false} WithoutUnique<K, V>(s: seq<(K, V)>, ks: set<K>)
    requires UniqueKeys(s)
    ensures UniqueKeys(Without(s, ks))
  {
    if s != [] {
      UniqueTail(s);
      WithoutUnique(s[1..], ks);
      var t := Without(s[1..], ks);
      KeysWithout(s[1..], ks);
      assert forall j :: 0 <= j < |t| ==> t[j].0 in Keys(t);
    }
  }

  /** Deleting `a` and then `b` is deleting `a + b`. */
  lemma {:induction false} WithoutWithout<K, V>(s: seq<(K, V)>, a: set<K>, b: set<K>)
    ensures Without(Without(s, a), b) == Without(s, a + b)
  {
    if s != [] {
      WithoutWithout(s[1..], a, b);
    }
  }

  /** Deleting one more key that is already gone changes nothing. */
  lemma WithoutMissing<K, V>(s: seq<(K, V)>, ks: set<K>, k: K)
    requires Get(Without(s, ks), k).None?
    ensures Without(s, ks + {k}) == Without(s, ks)
  {
    GetKeys(Without(s, ks), k);
    WithoutAbsent(Without(s, ks), {k});
    WithoutWithout(s, ks, {k});
  }

  /** Deletion keeps the remaining entries in their order: it distributes over concatenation. */
  lemma {:induction false} WithoutAppend<K, V>(a: seq<(K, V)>, b: seq<(K, V)>, ks: set<K>)
    ensures Without(a + b, ks) == Without(a, ks) + Without(b, ks)
  {
    if a == [] {
      assert a + b == b;
    } else {
      assert (a + b)[0] == a[0];
      assert (a + b)[1..] == a[1..] + b;
      WithoutAppend(a[1..], b, ks);
    }
  }

  /** Deleting keys that are absent changes nothing. */
  lemma {:induction false} WithoutAbsent<K, V>(s: seq<(K, V)>, ks: set<K>)
    requires Keys(s) !! ks
    ensures Without(s, ks) == s
  {
    if s != [] {
      KeysCons(s);
      WithoutAbsent(s[1..], ks);
    }
  }
}
