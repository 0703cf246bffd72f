/** Small value-level helpers shared by the two stores. */
module Support {

  /** A read from a plain object: the value, or `undefined` (None) when the key is absent. */
  datatype Option<+T> = None | Some(value: T)

  /** Reading `m[key]` in JavaScript, with `undefined` for a missing key. */
  function Lookup<K, V>(m: map<K, V>, key: K): Option<V>
  {
    if key in m then Some(m[key]) else None
  }

  /** No key occurs twice in `s`. */
  predicate NoDup<T(==)>(s: seq<T>)
  {
    forall i, j :: 0 <= i < j < |s| ==> s[i] != s[j]
  }

  /** The set of elements of a list. */
  function Elems<T>(s: seq<T>): set<T>
  {
    set x | x in s
  }

  /** Appending an element that is not yet present keeps a list duplicate-free. */
  lemma AppendFresh<T>(s: seq<T>, x: T)
    requires NoDup(s) && x !in s
    ensures NoDup(s + [x]) && Elems(s + [x]) == Elems(s) + {x}
  {
  }

  /** Concatenating two duplicate-free lists with no common element is duplicate-free. */
  lemma ConcatDisjoint<T>(a: seq<T>, b: seq<T>)
    requires NoDup(a) && NoDup(b) && Elems(a) !! Elems(b)
    ensures NoDup(a + b) && Elems(a + b) == Elems(a) + Elems(b)
  {
    forall i, j | 0 <= i < j < |a + b|
      ensures (a + b)[i] != (a + b)[j]
    {
      if i < |a| && |a| <= j {
        assert (a + b)[i] in Elems(a) && (a + b)[j] in Elems(b);
      }
    }
  }
}
