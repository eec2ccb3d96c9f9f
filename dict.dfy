/** `Dictionary<string, V>` as the tool uses it: entries in insertion order
    (the enumeration order of a .NET dictionary that never loses a key),
    compared with either `StringComparer.Ordinal` or
    `StringComparer.OrdinalIgnoreCase`.  Assigning through the indexer to a key
    that is already present replaces the value and keeps the stored key's
    spelling and position; a new key is appended. */
module Dict {
  import opened Text

  datatype Comparer = Ordinal | OrdinalIgnoreCase

  /** The form of a key that the comparer actually compares. */
  function KeyOf(cmp: Comparer, k: string): string {
    if cmp == Ordinal then k else Lower(k)
  }

  predicate SameKey(cmp: Comparer, a: string, b: string) {
    KeyOf(cmp, a) == KeyOf(cmp, b)
  }

  type Entries<V> = seq<(string, V)>

  /** Position of the entry whose key matches `k`, or `|m|` when there is none. */
  function Find<V>(m: Entries<V>, cmp: Comparer, k: string): (r: nat)
    ensures r <= |m|
    ensures r < |m| ==> SameKey(cmp, m[r].0, k)
    ensures forall j :: 0 <= j < r ==> !SameKey(cmp, m[j].0, k)
  {
    if m == [] then 0
    else if SameKey(cmp, m[0].0, k) then 0
    else 1 + Find(m[1..], cmp, k)
  }

  /** `TryGetValue`. */
  function Get<V>(m: Entries<V>, cmp: Comparer, k: string): Option<V> {
    var i := Find(m, cmp, k);
    if i < |m| then Some(m[i].1) else None
  }

  predicate ContainsKey<V>(m: Entries<V>, cmp: Comparer, k: string) {
    Find(m, cmp, k) < |m|
  }

  /** The indexer assignment `m[k] = v`. */
  function Put<V>(m: Entries<V>, cmp: Comparer, k: string, v: V): (r: Entries<V>)
    ensures ContainsKey(m, cmp, k) ==> |r| == |m|
    ensures !ContainsKey(m, cmp, k) ==> r == m + [(k, v)]
  {
    var i := Find(m, cmp, k);
    if i < |m| then m[i := (m[i].0, v)] else m + [(k, v)]
  }

  /** No two entries have keys that the comparer considers equal. */
  predicate DistinctKeys<V>(m: Entries<V>, cmp: Comparer) {
    forall i, j :: 0 <= i < j < |m| ==> !SameKey(cmp, m[i].0, m[j].0)
  }

  function Keys<V>(m: Entries<V>): (r: seq<string>)
    ensures |r| == |m| && forall i :: 0 <= i < |m| ==> r[i] == m[i].0
  {
    if m == [] then [] else [m[0].0] + Keys(m[1..])
  }

  function Values<V>(m: Entries<V>): (r: seq<V>)
    ensures |r| == |m| && forall i :: 0 <= i < |m| ==> r[i] == m[i].1
  {
    if m == [] then [] else [m[0].1] + Values(m[1..])
  }

  lemma {:induction false} FindAppend<V>(m: Entries<V>, cmp: Comparer, e: (string, V), k: string)
    ensures Find(m + [e], cmp, k) == if ContainsKey(m, cmp, k) then Find(m, cmp, k)
                                     else if SameKey(cmp, e.0, k) then |m| else |m| + 1
  {
    if m != [] {
      assert (m + [e])[0] == m[0];
      assert (m + [e])[1..] == m[1..] + [e];
      FindAppend(m[1..], cmp, e, k);
    }
  }

  /** `Find` looks at keys only. */
  lemma {:induction false} FindKeysOnly<V>(m: Entries<V>, n: Entries<V>, cmp: Comparer, k: string)
    requires |m| == |n| && forall t :: 0 <= t < |m| ==> m[t].0 == n[t].0
    ensures Find(m, cmp, k) == Find(n, cmp, k)
  {
    if m != [] {
      FindKeysOnly(m[1..], n[1..], cmp, k);
    }
  }

  /** A key that matches a stored key matches the same first entry. */
  lemma FindSameKey<V>(m: Entries<V>, cmp: Comparer, k: string, k2: string)
    requires SameKey(cmp, k, k2)
    ensures Find(m, cmp, k) == Find(m, cmp, k2)
  {
  }

  lemma PutKeepsKeys<V>(m: Entries<V>, cmp: Comparer, k: string, v: V)
    requires ContainsKey(m, cmp, k)
    ensures |Put(m, cmp, k, v)| == |m|
    ensures forall t :: 0 <= t < |m| ==> Put(m, cmp, k, v)[t].0 == m[t].0
    ensures Put(m, cmp, k, v)[Find(m, cmp, k)].1 == v
    ensures forall t :: 0 <= t < |m| && t != Find(m, cmp, k) ==> Put(m, cmp, k, v)[t] == m[t]
  {
  }

  /** Reading after an indexer assignment: the assigned key reads the new value,
      every other key reads what it read before. */
  lemma GetPut<V>(m: Entries<V>, cmp: Comparer, k: string, v: V, k2: string)
    ensures Get(Put(m, cmp, k, v), cmp, k2) == if SameKey(cmp, k2, k) then Some(v) else Get(m, cmp, k2)
  {
    var r := Put(m, cmp, k, v);
    if ContainsKey(m, cmp, k) {
      PutKeepsKeys(m, cmp, k, v);
      FindKeysOnly(m, r, cmp, k2);
      if SameKey(cmp, k2, k) {
        FindSameKey(m, cmp, k, k2);
      }
    } else {
      FindAppend(m, cmp, (k, v), k2);
      if SameKey(cmp, k2, k) {
        FindSameKey(m, cmp, k, k2);
      }
    }
  }

  lemma GetSome<V>(m: Entries<V>, cmp: Comparer, i: nat)
    requires DistinctKeys(m, cmp) && i < |m|
    ensures Find(m, cmp, m[i].0) == i && Get(m, cmp, m[i].0) == Some(m[i].1)
  {
  }

  /** The keys after an assignment: unchanged, or the new key appended. */
  lemma KeysPut<V>(m: Entries<V>, cmp: Comparer, k: string, v: V)
    ensures Keys(Put(m, cmp, k, v)) == if ContainsKey(m, cmp, k) then Keys(m) else Keys(m) + [k]
  {
    var r := Put(m, cmp, k, v);
    if ContainsKey(m, cmp, k) {
      var i := Find(m, cmp, k);
      assert forall j :: 0 <= j < |m| ==> r[j].0 == m[j].0;
    }
  }

  lemma PutDistinct<V>(m: Entries<V>, cmp: Comparer, k: string, v: V)
    requires DistinctKeys(m, cmp)
    ensures DistinctKeys(Put(m, cmp, k, v), cmp)
  {
    KeysPut(m, cmp, k, v);
    var r := Put(m, cmp, k, v);
    assert forall j :: 0 <= j < |r| ==> r[j].0 == Keys(r)[j];
  }

  /** The value that the last pair with a key matching `k` carries. */
  function LastValue<V>(ps: seq<(string, V)>, cmp: Comparer, k: string): Option<V> {
    if ps == [] then None
    else if SameKey(cmp, ps[|ps| - 1].0, k) then Some(ps[|ps| - 1].1)
    else LastValue(ps[..|ps| - 1], cmp, k)
  }

  /** A sequence of indexer assignments, in order. */
  function PutAll<V>(m: Entries<V>, cmp: Comparer, ps: seq<(string, V)>): Entries<V> {
    if ps == [] then m
    else Put(PutAll(m, cmp, ps[..|ps| - 1]), cmp, ps[|ps| - 1].0, ps[|ps| - 1].1)
  }

  /** After a run of assignments every key reads the value it was given last,
      and a key that was never assigned reads what it read before. */
  lemma {:induction false} GetPutAll<V>(m: Entries<V>, cmp: Comparer, ps: seq<(string, V)>, k: string)
    ensures Get(PutAll(m, cmp, ps), cmp, k)
         == match LastValue(ps, cmp, k) case Some(v) => Some(v) case None => Get(m, cmp, k)
  {
    if ps != [] {
      var last := ps[|ps| - 1];
      GetPutAll(m, cmp, ps[..|ps| - 1], k);
      GetPut(PutAll(m, cmp, ps[..|ps| - 1]), cmp, last.0, last.1, k);
    }
  }

  lemma {:induction false} PutAllDistinct<V>(m: Entries<V>, cmp: Comparer, ps: seq<(string, V)>)
    requires DistinctKeys(m, cmp)
    ensures DistinctKeys(PutAll(m, cmp, ps), cmp)
  {
    if ps != [] {
      PutAllDistinct(m, cmp, ps[..|ps| - 1]);
      PutDistinct(PutAll(m, cmp, ps[..|ps| - 1]), cmp, ps[|ps| - 1].0, ps[|ps| - 1].1);
    }
  }
}
