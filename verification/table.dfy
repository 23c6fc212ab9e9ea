/**
 * The threshold table: a `TreeMap<Integer, List<String>>` from threshold to
 * its command list. It is modelled as its ascending entry sequence, which is
 * exactly the order in which `entrySet()` and `keySet()` iterate.
 */
module ThresholdTable {
  import opened Wrappers

  datatype Entry = Entry(key: int, commands: seq<string>)

  /** Keys strictly increase along the sequence (so they are also unique). */
  predicate Ascending(es: seq<Entry>) {
    forall i, j | 0 <= i < j < |es| :: es[i].key < es[j].key
  }

  type Table = es: seq<Entry> | Ascending(es)

  function KeySet(es: seq<Entry>): set<int>
    decreases |es|
  {
    if |es| == 0 then {} else {es[0].key} + KeySet(es[1..])
  }

  lemma {:induction false} KeySetIndex(es: seq<Entry>, k: int)
    ensures k in KeySet(es) <==> exists i | 0 <= i < |es| :: es[i].key == k
    decreases |es|
  {
    if |es| > 0 {
      KeySetIndex(es[1..], k);
      if exists i | 0 <= i < |es[1..]| :: es[1..][i].key == k {
        var i :| 0 <= i < |es[1..]| && es[1..][i].key == k;
        assert es[i + 1].key == k;
      }
      if exists i | 0 <= i < |es| :: es[i].key == k {
        var i :| 0 <= i < |es| && es[i].key == k;
        if i > 0 {
          assert es[1..][i - 1].key == k;
        }
      }
    }
  }

  /** The map a table stands for. */
  function ToMap(t: Table): (m: map<int, seq<string>>)
    ensures m.Keys == KeySet(t)
    decreases |t|
  {
    if |t| == 0 then map[] else ToMap(t[1..])[t[0].key := t[0].commands]
  }

  /** The first key of a table is below every later key. */
  lemma HeadIsLeast(t: Table)
    requires |t| > 0
    ensures forall k | k in KeySet(t[1..]) :: t[0].key < k
    ensures forall k | k in KeySet(t) :: t[0].key <= k
  {
    forall k | k in KeySet(t[1..])
      ensures t[0].key < k
    {
      KeySetIndex(t[1..], k);
      var i :| 0 <= i < |t[1..]| && t[1..][i].key == k;
      assert t[i + 1].key == k;
    }
  }

  /** The map of a table's tail is its map without the first key. */
  lemma ToMapTail(t: Table)
    requires |t| > 0
    ensures ToMap(t[1..]) == ToMap(t) - {t[0].key}
  {
    HeadIsLeast(t);
  }

  /** Each entry's commands are what the map holds at its key. */
  lemma {:induction false} ToMapAt(t: Table, i: nat)
    requires i < |t|
    ensures t[i].key in ToMap(t) && ToMap(t)[t[i].key] == t[i].commands
    decreases i
  {
    if i > 0 {
      ToMapAt(t[1..], i - 1);
    }
  }

  /**
   * An ascending table is determined by its map: two tables standing for
   * the same mapping are the same sequence, so the iteration order of a
   * table follows from its contents alone.
   */
  lemma {:induction false} ToMapInjective(a: Table, b: Table)
    requires ToMap(a) == ToMap(b)
    ensures a == b
    decreases |a|
  {
    if |a| > 0 {
      assert |b| > 0 by {
        assert a[0].key in ToMap(b).Keys;
      }
      HeadIsLeast(a);
      HeadIsLeast(b);
      assert a[0].key == b[0].key by {
        assert a[0].key in KeySet(b);
        assert b[0].key in KeySet(a);
      }
      ToMapAt(a, 0);
      ToMapAt(b, 0);
      ToMapTail(a);
      ToMapTail(b);
      ToMapInjective(a[1..], b[1..]);
      assert a == [a[0]] + a[1..];
      assert b == [b[0]] + b[1..];
    }
  }

  /** An entry below every key of a table can be put in front of it. */
  lemma Cons(e: Entry, rest: Table)
    requires forall k | k in KeySet(rest) :: e.key < k
    ensures Ascending([e] + rest)
    ensures ([e] + rest)[1..] == rest
  {
    var r := [e] + rest;
    assert r[1..] == rest;
    forall i, j | 0 <= i < j < |r|
      ensures r[i].key < r[j].key
    {
      if i == 0 {
        KeySetIndex(rest, rest[j - 1].key);
      }
    }
  }

  /** The map and keys of a table with an entry in front. */
  lemma ConsMap(e: Entry, rest: Table)
    requires Ascending([e] + rest)
    ensures ToMap([e] + rest) == ToMap(rest)[e.key := e.commands]
    ensures KeySet([e] + rest) == {e.key} + KeySet(rest)
  {
    assert ([e] + rest)[1..] == rest;
  }

  /** Put below every key: the new entry goes in front. */
  lemma PutBefore(t: Table, k: int, v: seq<string>)
    requires |t| > 0 && k < t[0].key
    ensures Ascending([Entry(k, v)] + t)
    ensures ToMap([Entry(k, v)] + t) == ToMap(t)[k := v]
  {
    HeadIsLeast(t);
    Cons(Entry(k, v), t);
    ConsMap(Entry(k, v), t);
  }

  lemma UpdateTwice(m: map<int, seq<string>>, k: int, a: seq<string>, b: seq<string>)
    ensures m[k := a][k := b] == m[k := b]
  {
  }

  lemma UpdateSwap(m: map<int, seq<string>>, j: int, a: seq<string>, k: int, b: seq<string>)
    requires j != k
    ensures m[j := a][k := b] == m[k := b][j := a]
  {
  }

  /** Put at the first key: its value is replaced in place. */
  lemma PutAtHead(t: Table, k: int, v: seq<string>)
    requires |t| > 0 && k == t[0].key
    ensures Ascending([Entry(k, v)] + t[1..])
    ensures ToMap([Entry(k, v)] + t[1..]) == ToMap(t)[k := v]
  {
    var tail := t[1..];
    HeadIsLeast(t);
    Cons(Entry(k, v), tail);
    ConsMap(Entry(k, v), tail);
    assert [t[0]] + tail == t;
    ConsMap(t[0], tail);
    UpdateTwice(ToMap(tail), k, t[0].commands, v);
  }

  /** Put above the first key: the first entry stays in front of the updated tail. */
  lemma PutAfter(t: Table, k: int, v: seq<string>, rest: Table)
    requires |t| > 0 && t[0].key < k
    requires ToMap(rest) == ToMap(t[1..])[k := v]
    ensures Ascending([t[0]] + rest)
    ensures ToMap([t[0]] + rest) == ToMap(t)[k := v]
  {
    PutAfterOrder(t, k, rest);
    PutAfterMap(t, k, v, rest);
  }

  lemma PutAfterMap(t: Table, k: int, v: seq<string>, rest: Table)
    requires |t| > 0 && t[0].key < k
    requires ToMap(rest) == ToMap(t[1..])[k := v]
    requires Ascending([t[0]] + rest)
    ensures ToMap([t[0]] + rest) == ToMap(t)[k := v]
  {
    var tail, e := t[1..], t[0];
    assert [e] + tail == t;
    ConsMap(e, rest);
    ConsMap(e, tail);
    UpdateSwap(ToMap(tail), k, v, e.key, e.commands);
  }

  lemma PutAfterOrder(t: Table, k: int, rest: Table)
    requires |t| > 0 && t[0].key < k
    requires KeySet(rest) == KeySet(t[1..]) + {k}
    ensures Ascending([t[0]] + rest)
  {
    HeadIsLeast(t);
    Cons(t[0], rest);
  }

  /**
   * `TreeMap.put(k, v)`: a new key is inserted at its place in ascending
   * order, an existing key has its value replaced in place.
   */
  function Put(t: Table, k: int, v: seq<string>): (r: Table)
    ensures ToMap(r) == ToMap(t)[k := v]
    ensures KeySet(r) == KeySet(t) + {k}
    decreases |t|
  {
    if |t| == 0 then [Entry(k, v)]
    else if k < t[0].key then
      PutBefore(t, k, v);
      [Entry(k, v)] + t
    else if k == t[0].key then
      PutAtHead(t, k, v);
      [Entry(k, v)] + t[1..]
    else
      var rest := Put(t[1..], k, v);
      PutAfter(t, k, v, rest);
      [t[0]] + rest
  }

  /** `TreeMap.get(k)`: the commands stored at `k`, if any. */
  function Get(t: Table, k: int): (r: Option<seq<string>>)
    ensures r.Some? <==> k in ToMap(t)
    ensures r.Some? ==> r.value == ToMap(t)[k]
    decreases |t|
  {
    if |t| == 0 then None
    else if t[0].key == k then Some(t[0].commands)
    else Get(t[1..], k)
  }

  /**
   * The first key met in ascending iteration that is strictly greater than
   * `c`: the least such key, or None when every key is at most `c`.
   */
  function FirstKeyAbove(t: Table, c: int): (r: Option<int>)
    ensures r.Some? ==> r.value in KeySet(t) && r.value > c
    ensures r.Some? ==> forall k | k in KeySet(t) && k > c :: r.value <= k
    ensures r.None? <==> forall k | k in KeySet(t) :: k <= c
    decreases |t|
  {
    if |t| == 0 then None
    else if t[0].key > c then
      HeadIsLeast(t);
      Some(t[0].key)
    else
      FirstKeyAbove(t[1..], c)
  }
}
