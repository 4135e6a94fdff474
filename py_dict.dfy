/**
 * The scraped records are Python dicts: string keys, values that are integers,
 * strings or floats, and keys kept in insertion order.  A dict is modelled as an
 * association list whose keys are distinct; assigning to a present key keeps its
 * position, assigning to a new key appends it, as CPython does.
 */
module PyDict {
  import opened Wrappers
  import opened SeqUtil

  /** A cell value: a Python `int`, `str` or `float` (the float as an exact real). */
  datatype Value = Int(i: int) | Text(s: string) | Real(x: real)

  type Dict = seq<(string, Value)>

  function Keys(d: Dict): (ks: seq<string>)
    ensures |ks| == |d| && forall j :: 0 <= j < |d| ==> ks[j] == d[j].0
  {
    if d == [] then [] else [d[0].0] + Keys(d[1..])
  }

  predicate HasKey(d: Dict, k: string) {
    k in Keys(d)
  }

  /** `d.get(k)`, with `None` for a missing key. */
  function Get(d: Dict, k: string): (r: Option<Value>)
    ensures r.Some? <==> HasKey(d, k)
    ensures r.Some? ==> exists j :: 0 <= j < |d| && d[j] == (k, r.value)
  {
    if d == [] then None
    else if d[0].0 == k then Some(d[0].1)
    else Get(d[1..], k)
  }

  /** `d.get(k, default)`. */
  function GetOr(d: Dict, k: string, default: Value): Value {
    match Get(d, k)
    case Some(v) => v
    case None => default
  }

  /** `d[k] = v`. */
  function Set(d: Dict, k: string, v: Value): (r: Dict)
    ensures HasKey(d, k) ==> Keys(r) == Keys(d)
    ensures !HasKey(d, k) ==> Keys(r) == Keys(d) + [k]
  {
    if d == [] then [(k, v)]
    else if d[0].0 == k then [(k, v)] + d[1..]
    else
      var r := [d[0]] + Set(d[1..], k, v);
      assert Keys(r) == [d[0].0] + Keys(Set(d[1..], k, v));
      assert Keys(d) == [d[0].0] + Keys(d[1..]);
      r
  }

  /** A dict literal or a chain of assignments never repeats a key. */
  predicate WellFormed(d: Dict) {
    NoDups(Keys(d))
  }

  lemma {:induction false} GetSetSame(d: Dict, k: string, v: Value)
    ensures Get(Set(d, k, v), k) == Some(v)
    decreases |d|
  {
    if d != [] && d[0].0 != k {
      GetSetSame(d[1..], k, v);
    }
  }

  lemma {:induction false} GetSetOther(d: Dict, k: string, v: Value, j: string)
    requires j != k
    ensures Get(Set(d, k, v), j) == Get(d, j)
    decreases |d|
  {
    if d != [] && d[0].0 != k {
      GetSetOther(d[1..], k, v, j);
    }
  }

  lemma SetWellFormed(d: Dict, k: string, v: Value)
    requires WellFormed(d)
    ensures WellFormed(Set(d, k, v))
  {
    if !HasKey(d, k) {
      var ks := Keys(d) + [k];
      forall a, b | 0 <= a < b < |ks| ensures ks[a] != ks[b] {
        if b == |Keys(d)| {
          assert ks[a] == Keys(d)[a];
        }
      }
    }
  }

  /** A dict built from distinct keys, in order, each with its value. */
  function FromPairs(ks: seq<string>, vs: seq<Value>): (d: Dict)
    requires |ks| == |vs|
    ensures Keys(d) == ks
  {
    if ks == [] then [] else [(ks[0], vs[0])] + FromPairs(ks[1..], vs[1..])
  }
  /** The assignments `d[k] = v` for the pairs of `kvs`, in order. */
  function SetAll(d: Dict, kvs: seq<(string, Value)>): Dict {
    if kvs == [] then d
    else Set(SetAll(d, kvs[..|kvs| - 1]), kvs[|kvs| - 1].0, kvs[|kvs| - 1].1)
  }

  /** The value of the last pair of `kvs` whose key is `k`. */
  function LastFor(kvs: seq<(string, Value)>, k: string): Option<Value> {
    if kvs == [] then None
    else if kvs[|kvs| - 1].0 == k then Some(kvs[|kvs| - 1].1)
    else LastFor(kvs[..|kvs| - 1], k)
  }

  /** After a run of assignments a key holds the last value assigned to it, or what it held before. */
  lemma {:induction false} GetSetAll(d: Dict, kvs: seq<(string, Value)>, k: string)
    ensures Get(SetAll(d, kvs), k) == if LastFor(kvs, k).Some? then LastFor(kvs, k) else Get(d, k)
    decreases |kvs|
  {
    if kvs != [] {
      var init, last := kvs[..|kvs| - 1], kvs[|kvs| - 1];
      GetSetAll(d, init, k);
      if last.0 == k {
        GetSetSame(SetAll(d, init), k, last.1);
      } else {
        GetSetOther(SetAll(d, init), last.0, last.1, k);
      }
    }
  }

  /** Assignments never drop or reorder keys: the old keys stay a prefix of the new ones. */
  lemma {:induction false} SetAllKeys(d: Dict, kvs: seq<(string, Value)>)
    requires WellFormed(d)
    ensures WellFormed(SetAll(d, kvs))
    ensures |Keys(d)| <= |Keys(SetAll(d, kvs))| && Keys(SetAll(d, kvs))[..|Keys(d)|] == Keys(d)
    decreases |kvs|
  {
    if kvs != [] {
      var init, last := kvs[..|kvs| - 1], kvs[|kvs| - 1];
      SetAllKeys(d, init);
      SetWellFormed(SetAll(d, init), last.0, last.1);
    }
  }

  lemma SetAllAppend(d: Dict, kvs: seq<(string, Value)>, kv: (string, Value))
    ensures SetAll(d, kvs + [kv]) == Set(SetAll(d, kvs), kv.0, kv.1)
  {
    assert (kvs + [kv])[..|kvs|] == kvs;
  }

  /** In a dict built from distinct keys, each key holds the value given with it. */
  lemma {:induction false} GetFromPairs(ks: seq<string>, vs: seq<Value>, j: nat)
    requires |ks| == |vs| && NoDups(ks) && j < |ks|
    ensures Get(FromPairs(ks, vs), ks[j]) == Some(vs[j])
    decreases j
  {
    if j > 0 {
      assert ks[0] != ks[j];
      GetFromPairs(ks[1..], vs[1..], j - 1);
    }
  }

  /** The keys of `d` start with the keys of `d0`, in the same order. */
  predicate KeysKept(d0: Dict, d: Dict) {
    |Keys(d0)| <= |Keys(d)| && Keys(d)[..|Keys(d0)|] == Keys(d0)
  }

  lemma KeysKeptTrans(d0: Dict, d1: Dict, d2: Dict)
    requires KeysKept(d0, d1) && KeysKept(d1, d2)
    ensures KeysKept(d0, d2)
  {
    assert Keys(d2)[..|Keys(d0)|] == Keys(d2)[..|Keys(d1)|][..|Keys(d0)|];
  }

  /**
   * A numeric field as a sort key or comparison operand.  The records the
   * report scripts read hold an int or a float there; anything else, where
   * Python would raise, reads as 0.
   */
  function NumberAt(d: Dict, k: string): real {
    match Get(d, k)
    case Some(Int(i)) => i as real
    case Some(Real(x)) => x
    case _ => 0.0
  }

  /** An int field; anything else, where Python would raise, reads as 0. */
  function IntAt(d: Dict, k: string): int {
    match Get(d, k)
    case Some(Int(i)) => i
    case _ => 0
  }
}
