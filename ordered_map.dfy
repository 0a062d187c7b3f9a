/**
 * A `BTreeMap<EcoString, V>` as the list of its entries in iteration order:
 * keys strictly ascending under `StrOrder.Less`, hence each key at most once.
 */
module OrderedMap {
  import opened Wrappers
  import opened StrOrder

  predicate Sorted<V>(m: seq<(string, V)>)
  {
    forall i, j :: 0 <= i < j < |m| ==> Less(m[i].0, m[j].0)
  }

  function Keys<V>(m: seq<(string, V)>): set<string>
  {
    set i | 0 <= i < |m| :: m[i].0
  }

  /** `map.get(k)`. */
  function Lookup<V>(m: seq<(string, V)>, k: string): Option<V>
  {
    if m == [] then None
    else if m[0].0 == k then Some(m[0].1)
    else Lookup(m[1..], k)
  }

  lemma {:induction false} LookupKeys<V>(m: seq<(string, V)>, k: string)
    ensures Lookup(m, k).Some? <==> k in Keys(m)
  {
    if m != [] {
      LookupKeys(m[1..], k);
      assert Keys(m) == {m[0].0} + Keys(m[1..]) by {
        forall x | x in Keys(m) ensures x in {m[0].0} + Keys(m[1..]) {
          var i :| 0 <= i < |m| && m[i].0 == x;
          if i > 0 { assert m[1..][i - 1].0 == x; }
        }
      }
    }
  }

  /** In a sorted map the entry at position `i` is what a lookup of its key finds. */
  lemma {:induction false} LookupAt<V>(m: seq<(string, V)>, i: nat)
    requires Sorted(m) && i < |m|
    ensures Lookup(m, m[i].0) == Some(m[i].1)
  {
    if i > 0 {
      LessIrreflexive(m[i].0);
      assert m[0].0 != m[i].0 by { LessIrreflexive(m[0].0); }
      assert m[1..][i - 1] == m[i];
      LookupAt(m[1..], i - 1);
    }
  }

  lemma KeysCons<V>(x: (string, V), m: seq<(string, V)>)
    ensures Keys([x] + m) == {x.0} + Keys(m)
  {
    var r := [x] + m;
    forall y | y in Keys(r) ensures y in {x.0} + Keys(m) {
      var i :| 0 <= i < |r| && r[i].0 == y;
      if i > 0 { assert m[i - 1].0 == y; }
    }
    forall y | y in Keys(m) ensures y in Keys(r) {
      var i :| 0 <= i < |m| && m[i].0 == y;
      assert r[i + 1].0 == y;
    }
    assert r[0].0 == x.0;
  }

  /** A key below every key of a sorted map can be put in front of it. */
  lemma SortedCons<V>(x: (string, V), m: seq<(string, V)>)
    requires Sorted(m)
    requires forall y | y in Keys(m) :: Less(x.0, y)
    ensures Sorted([x] + m)
  {
    var r := [x] + m;
    forall i, j | 0 <= i < j < |r| ensures Less(r[i].0, r[j].0) {
      if i == 0 {
        assert r[j].0 == m[j - 1].0 && m[j - 1].0 in Keys(m);
      } else {
        assert r[i] == m[i - 1] && r[j] == m[j - 1];
      }
    }
  }

  /**
   * `if let Entry::Vacant(e) = m.entry(k) { e.insert(v) }`: an absent key is
   * added with `v` at its place in the order; a present key keeps its value.
   */
  function InsertVacant<V>(m: seq<(string, V)>, k: string, v: V): (r: seq<(string, V)>)
    requires Sorted(m)
    ensures Sorted(r)
    ensures k in Keys(m) ==> r == m
    ensures k !in Keys(m) ==> Keys(r) == Keys(m) + {k} && |r| == |m| + 1
    ensures Lookup(r, k) == if k in Keys(m) then Lookup(m, k) else Some(v)
    ensures forall k' :: k' != k ==> Lookup(r, k') == Lookup(m, k')
  {
    if m == [] then
      KeysCons((k, v), m);
      [(k, v)]
    else
      assert m == [m[0]] + m[1..];
      KeysCons(m[0], m[1..]);
      if m[0].0 == k then
        m
      else if Less(k, m[0].0) then
        assert forall y | y in Keys(m) :: Less(k, y) by {
          forall y | y in Keys(m) ensures Less(k, y) {
            var i :| 0 <= i < |m| && m[i].0 == y;
            if i > 0 { LessTransitive(k, m[0].0, y); }
          }
        }
        assert k !in Keys(m) by { LessIrreflexive(k); }
        KeysCons((k, v), m);
        SortedCons((k, v), m);
        [(k, v)] + m
      else
        var tail := InsertVacant(m[1..], k, v);
        assert Less(m[0].0, k) by { LessTotal(m[0].0, k); }
        assert forall y | y in Keys(m[1..]) :: Less(m[0].0, y) by {
          forall y | y in Keys(m[1..]) ensures Less(m[0].0, y) {
            var i :| 0 <= i < |m[1..]| && m[1..][i].0 == y;
            assert m[1..][i] == m[i + 1];
          }
        }
        KeysCons(m[0], tail);
        SortedCons(m[0], tail);
        [m[0]] + tail
  }
}
