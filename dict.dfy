/** Python dictionaries as the core uses them: insertion-ordered association
    lists. Assigning to a present key replaces its value where it stands;
    assigning to a new key appends it. */
module OrderedDicts {

  /** A dictionary in its iteration order. */
  type Dict<K, V> = seq<(K, V)>

  function Keys<K, V>(d: Dict<K, V>): seq<K>
  {
    seq(|d|, i requires 0 <= i < |d| => d[i].0)
  }

  predicate Distinct<T(==)>(s: seq<T>)
  {
    forall i, j :: 0 <= i < j < |s| ==> s[i] != s[j]
  }

  /** Position of the first entry whose key is `k`. */
  function IndexOf<K(==), V>(d: Dict<K, V>, k: K): (i: nat)
    requires k in Keys(d)
    ensures i < |d| && d[i].0 == k
    ensures forall j :: 0 <= j < i ==> d[j].0 != k
  {
    if d[0].0 == k then 0
    else
      assert Keys(d) == [d[0].0] + Keys(d[1..]);
      1 + IndexOf(d[1..], k)
  }

  /** The value stored under `k` (`d[k]`). */
  function Get<K(==), V>(d: Dict<K, V>, k: K): V
    requires k in Keys(d)
  {
    d[IndexOf(d, k)].1
  }

  /** `d[k] = v`: an existing key keeps its position, a new key goes last. */
  function Put<K(==), V>(d: Dict<K, V>, k: K, v: V): (r: Dict<K, V>)
    ensures Keys(r) == if k in Keys(d) then Keys(d) else Keys(d) + [k]
    ensures Distinct(Keys(d)) ==> Distinct(Keys(r))
    ensures k in Keys(r) && Get(r, k) == v
    ensures forall k' :: k' in Keys(d) && k' != k ==> Get(r, k') == Get(d, k')
  {
    if k in Keys(d) then
      var i := IndexOf(d, k);
      var r := d[i := (k, v)];
      assert Keys(r) == Keys(d);
      IndexOfAt(r, k, i);
      forall k' | k' in Keys(d) && k' != k ensures Get(r, k') == Get(d, k') {
        IndexOfAt(r, k', IndexOf(d, k'));
      }
      r
    else
      var r := d + [(k, v)];
      assert Keys(r) == Keys(d) + [k];
      assert forall j :: 0 <= j < |d| ==> r[j].0 == Keys(d)[j];
      IndexOfAt(r, k, |d|);
      forall k' | k' in Keys(d) && k' != k ensures Get(r, k') == Get(d, k') {
        IndexOfAt(r, k', IndexOf(d, k'));
      }
      r
  }

  lemma KeysDropLast<K, V>(ps: seq<(K, V)>)
    requires |ps| > 0
    ensures Keys(ps) == Keys(ps[..|ps| - 1]) + [ps[|ps| - 1].0]
  {
    assert Keys(ps[..|ps| - 1]) == Keys(ps)[..|ps| - 1];
  }

  lemma PutNew<K, V>(d: Dict<K, V>, k: K, v: V)
    requires k !in Keys(d)
    ensures Put(d, k, v) == d + [(k, v)]
  {
  }

  /** The first entry with key `k` is the one `IndexOf` finds. */
  lemma IndexOfAt<K, V>(d: Dict<K, V>, k: K, i: nat)
    requires i < |d| && d[i].0 == k
    requires forall j :: 0 <= j < i ==> d[j].0 != k
    ensures k in Keys(d) && IndexOf(d, k) == i
  {
    assert Keys(d)[i] == k;
  }

  /** The elements of `s`, each once, in the order of their first
      occurrences in `s` (`DedupOrder`). */
  function Dedup<T(==)>(s: seq<T>): (r: seq<T>)
    ensures Distinct(r)
    ensures forall i :: 0 <= i < |s| ==> s[i] in r
    ensures forall i :: 0 <= i < |r| ==> r[i] in s
  {
    if s == [] then []
    else
      var p, x := s[..|s| - 1], s[|s| - 1];
      assert s == p + [x];
      Dedup(p) + (if x in p then [] else [x])
  }

  /** Position of the first occurrence of `x` in `s`. */
  function FirstIndex<T(==)>(s: seq<T>, x: T): (i: nat)
    requires x in s
    ensures i < |s| && s[i] == x
    ensures forall j :: 0 <= j < i ==> s[j] != x
  {
    if s[0] == x then 0 else 1 + FirstIndex(s[1..], x)
  }

  /** An occurrence with no earlier one is the one `FirstIndex` finds. */
  lemma FirstIndexAt<T>(s: seq<T>, x: T, i: nat)
    requires i < |s| && s[i] == x
    requires forall j :: 0 <= j < i ==> s[j] != x
    ensures FirstIndex(s, x) == i
  {
    var k := FirstIndex(s, x);
    assert !(k < i) && !(i < k);
  }

  /** Appending an element does not move the first occurrence of an element
      already present, and a new element first occurs at the end. */
  lemma FirstIndexSnoc<T>(p: seq<T>, x: T, y: T)
    requires y in p + [x]
    ensures y in p ==> FirstIndex(p + [x], y) == FirstIndex(p, y)
    ensures y !in p ==> FirstIndex(p + [x], y) == |p|
  {
    if y in p {
      FirstIndexAt(p + [x], y, FirstIndex(p, y));
    } else {
      FirstIndexAt(p + [x], y, |p|);
    }
  }

  /** `Dedup` lists the elements of `s` in the order of their first
      occurrences in `s`. */
  lemma {:induction false} DedupOrder<T>(s: seq<T>)
    ensures forall i, j :: 0 <= i < j < |Dedup(s)| ==> FirstIndex(s, Dedup(s)[i]) < FirstIndex(s, Dedup(s)[j])
  {
    if s != [] {
      var p, x := s[..|s| - 1], s[|s| - 1];
      assert s == p + [x];
      DedupOrder(p);
      DedupSnoc(p, x);
      var d := Dedup(p);
      var r := d + (if x in p then [] else [x]);
      forall i | 0 <= i < |r| ensures r[i] in s && FirstIndex(s, r[i]) == if i < |d| then FirstIndex(p, d[i]) else |p| {
        if i < |d| {
          assert r[i] == d[i] && d[i] in p;
        } else {
          assert r[i] == x;
        }
        FirstIndexSnoc(p, x, r[i]);
      }
      forall i, j | 0 <= i < j < |r| ensures FirstIndex(s, r[i]) < FirstIndex(s, r[j]) {
        if j < |d| {
          assert FirstIndex(p, d[i]) < FirstIndex(p, d[j]);
        }
      }
    }
  }

  lemma DedupIn<T>(s: seq<T>, x: T)
    ensures x in Dedup(s) <==> x in s
  {
    if x in s {
      var i :| 0 <= i < |s| && s[i] == x;
    }
  }

  lemma DedupSnoc<T>(s: seq<T>, x: T)
    ensures Dedup(s + [x]) == Dedup(s) + (if x in s then [] else [x])
  {
    assert (s + [x])[..|s|] == s;
  }

  /** The dictionary built by assigning each pair of `ps` in turn. */
  function FromPairs<K(==), V>(ps: seq<(K, V)>): Dict<K, V>
  {
    if ps == [] then []
    else
      var last := ps[|ps| - 1];
      Put(FromPairs(ps[..|ps| - 1]), last.0, last.1)
  }

  /** The value of the last pair of `ps` whose key is `k`. */
  function LastValue<K(==), V>(ps: seq<(K, V)>, k: K): (v: V)
    requires k in Keys(ps)
    ensures exists i :: 0 <= i < |ps| && ps[i] == (k, v) && forall j :: i < j < |ps| ==> ps[j].0 != k
  {
    var p, last := ps[..|ps| - 1], ps[|ps| - 1];
    if last.0 == k then
      assert ps[|ps| - 1] == (k, last.1);
      last.1
    else
      assert k in Keys(p) by {
        KeysDropLast(ps);
      }
      var v := LastValue(p, k);
      assert exists i :: 0 <= i < |ps| && ps[i] == (k, v) && forall j :: i < j < |ps| ==> ps[j].0 != k by {
        var i :| 0 <= i < |p| && p[i] == (k, v) && forall j :: i < j < |p| ==> p[j].0 != k;
        forall j | i < j < |ps| ensures ps[j].0 != k {
          if j < |p| {
            assert ps[j] == p[j];
          }
        }
        assert ps[i] == p[i];
      }
      v
  }

  /** Assigning `k` to a dictionary whose keys are `Dedup(s)` gives the keys
      `Dedup(s + [k])`. */
  lemma PutDedup<K, V>(d: Dict<K, V>, s: seq<K>, k: K, v: V)
    requires Keys(d) == Dedup(s)
    ensures Keys(Put(d, k, v)) == Dedup(s + [k])
    ensures Distinct(Keys(Put(d, k, v)))
  {
    DedupSnoc(s, k);
    DedupIn(s, k);
  }

  lemma {:induction false} FromPairsKeys<K, V>(ps: seq<(K, V)>)
    ensures Keys(FromPairs(ps)) == Dedup(Keys(ps))
    ensures Distinct(Keys(FromPairs(ps)))
  {
    if ps != [] {
      var p, last := ps[..|ps| - 1], ps[|ps| - 1];
      FromPairsKeys(p);
      KeysDropLast(ps);
      PutDedup(FromPairs(p), Keys(p), last.0, last.1);
    }
  }

  lemma {:induction false} FromPairsValue<K, V>(ps: seq<(K, V)>, k: K)
    requires k in Keys(ps)
    ensures k in Keys(FromPairs(ps)) && Get(FromPairs(ps), k) == LastValue(ps, k)
  {
    var p, last := ps[..|ps| - 1], ps[|ps| - 1];
    KeysDropLast(ps);
    if last.0 != k {
      FromPairsValue(p, k);
    }
  }

  /** Assigning the pairs of `ps` in turn leaves one key per distinct key of
      `ps`, in first-occurrence order; a repeated key keeps the position of
      its first assignment and the value of its last. */
  lemma FromPairsSpec<K, V>(ps: seq<(K, V)>)
    ensures Keys(FromPairs(ps)) == Dedup(Keys(ps))
    ensures Distinct(Keys(FromPairs(ps)))
    ensures forall k :: k in Keys(ps) ==> k in Keys(FromPairs(ps)) && Get(FromPairs(ps), k) == LastValue(ps, k)
  {
    FromPairsKeys(ps);
    forall k | k in Keys(ps) ensures k in Keys(FromPairs(ps)) && Get(FromPairs(ps), k) == LastValue(ps, k) {
      FromPairsValue(ps, k);
    }
  }
}
