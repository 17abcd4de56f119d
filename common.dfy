/** Optional values and results with an error alternative, shared by every module. */
module Common {

  /** A value that may be absent (Python's `None`). */
  datatype Option<+T> = None | Some(value: T)

  /** The outcome of an operation that can raise: a value, or the error it raised. */
  datatype Result<+T, +E> = Ok(value: T) | Err(error: E)

  /** Every value when all are present, else `None`. */
  function AllSome<T>(os: seq<Option<T>>): (r: Option<seq<T>>)
    ensures r.Some? <==> forall i :: 0 <= i < |os| ==> os[i].Some?
    ensures r.Some? ==> |r.value| == |os| && forall i :: 0 <= i < |os| ==> r.value[i] == os[i].value
  {
    if os == [] then Some([])
    else
      match AllSome(os[..|os| - 1])
      case None => None
      case Some(vs) => if os[|os| - 1].None? then None else Some(vs + [os[|os| - 1].value])
  }

  // ------------------------------------------------------------ insertion-ordered dictionaries

  /**
   * A Python `dict`: its entries in the order their keys were first inserted. The
   * same representation also serves for a plain list of (key, value) pairs that is
   * about to be inserted into a dict.
   */
  type Dict<K, V> = seq<(K, V)>

  /** The position of the last entry with key `k`; in a dict, its only entry. */
  function KeyAt<K(==), V>(d: Dict<K, V>, k: K): (r: Option<nat>)
    ensures r.Some? ==> r.value < |d| && d[r.value].0 == k && forall j :: r.value < j < |d| ==> d[j].0 != k
    ensures r.None? <==> forall j :: 0 <= j < |d| ==> d[j].0 != k
  {
    if d == [] then None
    else if d[|d| - 1].0 == k then Some(|d| - 1)
    else KeyAt(d[..|d| - 1], k)
  }

  /** `d.get(k)`: the value of the last entry with key `k`. */
  function Lookup<K(==), V>(d: Dict<K, V>, k: K): Option<V> {
    match KeyAt(d, k)
    case None => None
    case Some(i) => Some(d[i].1)
  }

  /** Each key at most once. */
  ghost predicate UniqueKeys<K, V>(d: Dict<K, V>) {
    forall i, j :: 0 <= i < j < |d| ==> d[i].0 != d[j].0
  }

  /** `d[k] = v`: an existing key keeps its place and takes the new value; a new key goes last. */
  function Put<K(==), V>(d: Dict<K, V>, k: K, v: V): Dict<K, V> {
    match KeyAt(d, k)
    case Some(i) => d[i := (k, v)]
    case None => d + [(k, v)]
  }

  /** The entries inserted one after the other. */
  function PutAll<K(==), V>(d: Dict<K, V>, es: seq<(K, V)>): Dict<K, V> {
    if es == [] then d
    else Put(PutAll(d, es[..|es| - 1]), es[|es| - 1].0, es[|es| - 1].1)
  }

  /** Two entry lists with the same keys at the same places find every key at the same place. */
  lemma {:induction false} KeyAtSameKeys<K, V>(a: Dict<K, V>, b: Dict<K, V>, k: K)
    requires |a| == |b| && forall j :: 0 <= j < |a| ==> a[j].0 == b[j].0
    ensures KeyAt(a, k) == KeyAt(b, k)
  {
    if a != [] {
      KeyAtSameKeys(a[..|a| - 1], b[..|b| - 1], k);
    }
  }

  /**
   * After `d[k] = v` the key maps to `v`, every other key to what it mapped to,
   * every old entry keeps its key and place, and the dict grows only for a new key.
   */
  lemma PutSpec<K, V>(d: Dict<K, V>, k: K, v: V)
    ensures Lookup(Put(d, k, v), k) == Some(v)
    ensures forall k' :: k' != k ==> Lookup(Put(d, k, v), k') == Lookup(d, k')
    ensures |Put(d, k, v)| == |d| + (if KeyAt(d, k).None? then 1 else 0)
    ensures forall j :: 0 <= j < |d| ==> Put(d, k, v)[j].0 == d[j].0
    ensures UniqueKeys(d) ==> UniqueKeys(Put(d, k, v))
  {
    var after := Put(d, k, v);
    match KeyAt(d, k)
    case Some(i) =>
      forall k' | k' != k ensures Lookup(after, k') == Lookup(d, k') {
        KeyAtSameKeys(d, after, k');
      }
      KeyAtSameKeys(d, after, k);
    case None =>
      assert after[..|d|] == d;
  }

  /**
   * Inserting a list of entries: a key inserted takes the value of its last entry,
   * any other key keeps its value; old entries keep their keys and places; and keys
   * stay unique.
   */
  lemma {:induction false} PutAllSpec<K, V>(d: Dict<K, V>, es: seq<(K, V)>)
    ensures forall k :: Lookup(PutAll(d, es), k) == if Lookup(es, k).Some? then Lookup(es, k) else Lookup(d, k)
    ensures |PutAll(d, es)| >= |d| && forall j :: 0 <= j < |d| ==> PutAll(d, es)[j].0 == d[j].0
    ensures UniqueKeys(d) ==> UniqueKeys(PutAll(d, es))
  {
    if es != [] {
      var init := es[..|es| - 1];
      var last := es[|es| - 1];
      PutAllSpec(d, init);
      PutSpec(PutAll(d, init), last.0, last.1);
      forall k ensures Lookup(PutAll(d, es), k) == if Lookup(es, k).Some? then Lookup(es, k) else Lookup(d, k) {
        if k != last.0 {
          assert KeyAt(es, k) == KeyAt(init, k);
        }
      }
    }
  }

  /** `d.values()`, in dict order. */
  function Values<K, V>(d: Dict<K, V>): seq<V> {
    seq(|d|, i requires 0 <= i < |d| => d[i].1)
  }
}
