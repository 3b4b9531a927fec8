/** Python dictionaries as insertion-ordered association lists. A key's value is
    the one at its last occurrence (what building a dict from a list of pairs keeps);
    dictionaries built with `Set` never hold a key twice. */
module Dicts {
  import opened Wrappers

  type Dict<V> = seq<(string, V)>

  /** Position of the last entry whose key is `k`, or -1. */
  function KeyIndex<V>(d: Dict<V>, k: string): (r: int)
    ensures -1 <= r < |d|
    ensures r >= 0 ==> d[r].0 == k
    ensures forall i :: r < i < |d| ==> d[i].0 != k
  {
    if |d| == 0 then -1
    else if d[|d| - 1].0 == k then |d| - 1
    else KeyIndex(d[..|d| - 1], k)
  }

  /** `KeyIndex` is the only index with its postconditions. */
  lemma KeyIndexIs<V>(d: Dict<V>, k: string, j: int)
    requires -1 <= j < |d|
    requires j >= 0 ==> d[j].0 == k
    requires forall i :: j < i < |d| ==> d[i].0 != k
    ensures KeyIndex(d, k) == j
  {
  }

  /** The keys of a non-empty dict are those before its last entry and the
      last entry's. */
  lemma KeysSnoc<V>(d: Dict<V>)
    requires |d| > 0
    ensures Keys(d) == Keys(d[..|d| - 1]) + {d[|d| - 1].0}
  {
    forall x | x in Keys(d) ensures x in Keys(d[..|d| - 1]) + {d[|d| - 1].0} {
      var j :| 0 <= j < |d| && d[j].0 == x;
      if j < |d| - 1 { assert d[..|d| - 1][j].0 == x; }
    }
  }

  /** `k in d` */
  predicate HasKey<V>(d: Dict<V>, k: string) {
    KeyIndex(d, k) >= 0
  }

  function Keys<V>(d: Dict<V>): set<string> {
    set i | 0 <= i < |d| :: d[i].0
  }

  lemma HasKeyIffInKeys<V>(d: Dict<V>, k: string)
    ensures HasKey(d, k) <==> k in Keys(d)
  {
    if k in Keys(d) {
      var i :| 0 <= i < |d| && d[i].0 == k;
    }
  }

  /** `d.get(k)` with absence made explicit. */
  function Get<V>(d: Dict<V>, k: string): Option<V> {
    var i := KeyIndex(d, k);
    if i >= 0 then Some(d[i].1) else None
  }

  /** A dict whose every lookup outside `ks` misses has no keys outside `ks`. */
  lemma KeysWithin<V>(d: Dict<V>, ks: set<string>)
    requires forall k :: Get(d, k).Some? ==> k in ks
    ensures Keys(d) <= ks
  {
    forall k | k in Keys(d) ensures k in ks {
      HasKeyIffInKeys(d, k);
      assert Get(d, k).Some?;
    }
  }

  /** No key occurs twice, as in a Python dict. */
  predicate UniqueKeys<V>(d: Dict<V>) {
    forall i, j :: 0 <= i < j < |d| ==> d[i].0 != d[j].0
  }

  /** In a dict without repeated keys every entry is what its key looks up. */
  lemma UniqueGet<V>(d: Dict<V>, i: int)
    requires UniqueKeys(d) && 0 <= i < |d|
    ensures Get(d, d[i].0) == Some(d[i].1)
  {
    KeyIndexIs(d, d[i].0, i);
  }

  /** `d.get(k, default)` */
  function GetOr<V>(d: Dict<V>, k: string, default: V): V {
    Get(d, k).GetOr(default)
  }

  /** `d[k] = v`: an existing key keeps its position, a new one goes last. */
  function Set<V>(d: Dict<V>, k: string, v: V): (r: Dict<V>)
    ensures Get(r, k) == Some(v)
    ensures forall k' :: k' != k ==> Get(r, k') == Get(d, k')
    ensures |d| <= |r| <= |d| + 1
    ensures forall i :: 0 <= i < |d| ==> r[i].0 == d[i].0
    ensures Keys(r) == Keys(d) + {k}
  {
    var i := KeyIndex(d, k);
    if i >= 0 then
      var r := d[i := (k, v)];
      KeyIndexIs(r, k, i);
      forall k' | k' != k ensures KeyIndex(r, k') == KeyIndex(d, k') {
        KeyIndexIs(r, k', KeyIndex(d, k'));
      }
      assert Keys(r) == Keys(d) by {
        forall x | x in Keys(d) ensures x in Keys(r) {
          var j :| 0 <= j < |d| && d[j].0 == x;
          assert r[j].0 == x;
        }
      }
      r
    else
      var r := d + [(k, v)];
      assert KeyIndex(r, k) == |d|;
      assert forall k' :: k' != k ==> KeyIndex(r, k') == KeyIndex(d, k') by {
        forall k' | k' != k ensures KeyIndex(r, k') == KeyIndex(d, k') {
          assert r[..|r| - 1] == d;
        }
      }
      r
  }

  /** Setting a key never repeats one. */
  lemma SetUnique<V>(d: Dict<V>, k: string, v: V)
    requires UniqueKeys(d)
    ensures UniqueKeys(Set(d, k, v))
  {
    var i := KeyIndex(d, k);
    var r := Set(d, k, v);
    if i < 0 {
      assert r == d + [(k, v)];
    } else {
      assert r == d[i := (k, v)];
    }
  }

  /** `d.update(o)`: every key of either dict is kept, and `o` wins on conflict.
      Folding `Set` over `o` from the front is what the loop in `dict.update` does. */
  function Update<V>(d: Dict<V>, o: Dict<V>): (r: Dict<V>)
    ensures forall k :: Get(r, k) == (if HasKey(o, k) then Get(o, k) else Get(d, k))
    ensures Keys(r) == Keys(d) + Keys(o)
    ensures |r| >= |d| && forall i :: 0 <= i < |d| ==> r[i].0 == d[i].0
    decreases |o|
  {
    if |o| == 0 then d
    else
      var front := o[..|o| - 1];
      var k := o[|o| - 1].0;
      KeysSnoc(o);
      var r := Set(Update(d, front), k, o[|o| - 1].1);
      UpdateLast(d, o, Update(d, front));
      r
  }

  /** Setting the last entry of `o` on top of `d` updated with the rest of `o`
      gives every key its value in `d` updated with all of `o`. */
  lemma UpdateLast<V>(d: Dict<V>, o: Dict<V>, before: Dict<V>)
    requires |o| > 0
    requires forall k :: Get(before, k) == (if HasKey(o[..|o| - 1], k) then Get(o[..|o| - 1], k) else Get(d, k))
    ensures forall k :: Get(Set(before, o[|o| - 1].0, o[|o| - 1].1), k)
                        == (if HasKey(o, k) then Get(o, k) else Get(d, k))
  {
    var last := o[|o| - 1].0;
    forall k ensures Get(Set(before, last, o[|o| - 1].1), k) == (if HasKey(o, k) then Get(o, k) else Get(d, k)) {
      if k != last {
        assert KeyIndex(o, k) == KeyIndex(o[..|o| - 1], k);
      }
    }
  }

  /** `d.pop(k, None)` for a dict without repeated keys: every entry for `k`
      goes, the rest keep their order. */
  function Remove<V>(d: Dict<V>, k: string): (r: Dict<V>)
    ensures !HasKey(r, k)
    ensures forall k' :: k' != k ==> Get(r, k') == Get(d, k')
    ensures Keys(r) == Keys(d) - {k}
    ensures |r| <= |d|
  {
    if |d| == 0 then []
    else
      var front := Remove(d[..|d| - 1], k);
      var last := d[|d| - 1];
      if last.0 == k then
        KeysSnoc(d);
        front
      else
        var r := front + [last];
        assert r[..|r| - 1] == front;
        forall k' | k' != k ensures Get(r, k') == Get(d, k') {
          if k' == last.0 {
            assert KeyIndex(r, k') == |r| - 1;
            assert KeyIndex(d, k') == |d| - 1;
          } else {
            assert KeyIndex(r, k') == KeyIndex(front, k');
            assert KeyIndex(d, k') == KeyIndex(d[..|d| - 1], k');
            assert Get(r, k') == Get(front, k');
            assert Get(d, k') == Get(d[..|d| - 1], k');
          }
        }
        KeysSnoc(d);
        KeysSnoc(r);
        r
  }

  /** Removing a key never repeats one. */
  lemma {:induction false} RemoveUnique<V>(d: Dict<V>, k: string)
    ensures UniqueKeys(d) ==> UniqueKeys(Remove(d, k))
    decreases |d|
  {
    if |d| > 0 && UniqueKeys(d) {
      var front := d[..|d| - 1];
      var last := d[|d| - 1];
      RemoveUnique(front, k);
      if last.0 != k {
        var f := Remove(front, k);
        var r := f + [last];
        assert Remove(d, k) == r;
        forall i | 0 <= i < |f| ensures f[i].0 != last.0 {
          assert f[i].0 in Keys(f);
          var j :| 0 <= j < |front| && front[j].0 == f[i].0;
          assert d[j].0 == f[i].0;
        }
      }
    }
  }

  /** `Remove` unfolded at the last entry. */
  lemma RemoveSnoc<V>(d: Dict<V>, k: string)
    requires |d| > 0
    ensures Remove(d, k) == if d[|d| - 1].0 == k then Remove(d[..|d| - 1], k)
                            else Remove(d[..|d| - 1], k) + [d[|d| - 1]]
  {
  }

  /** The last key of a dict without repeats is not among the others. */
  lemma LastKeyAbsent<V>(d: Dict<V>)
    requires UniqueKeys(d) && |d| > 0
    ensures KeyIndex(d[..|d| - 1], d[|d| - 1].0) == -1
  {
    var front := d[..|d| - 1];
    forall j | 0 <= j < |front| ensures front[j].0 != d[|d| - 1].0 {
      assert d[j].0 != d[|d| - 1].0;
    }
    KeyIndexIs(front, d[|d| - 1].0, -1);
  }

  /** In a dict without repeated keys, `del d[k]` drops the one entry for `k`
      and keeps the others in their order. */
  lemma {:induction false} RemoveKeepsOrder<V>(d: Dict<V>, k: string)
    requires UniqueKeys(d)
    ensures var i := KeyIndex(d, k);
            Remove(d, k) == if i >= 0 then d[..i] + d[i + 1..] else d
    decreases |d|
  {
    if |d| > 0 {
      var front := d[..|d| - 1];
      var last := d[|d| - 1];
      assert UniqueKeys(front);
      RemoveKeepsOrder(front, k);
      RemoveSnoc(d, k);
      if last.0 == k {
        LastKeyAbsent(d);
        assert KeyIndex(d, k) == |d| - 1;
        assert d[..|d| - 1] + d[|d|..] == front;
      } else {
        RemoveKeepsOrderStep(d, k);
      }
    }
  }

  /** The step of `RemoveKeepsOrder` when the last entry stays. */
  lemma RemoveKeepsOrderStep<V>(d: Dict<V>, k: string)
    requires |d| > 0 && d[|d| - 1].0 != k
    requires var front := d[..|d| - 1];
             var i := KeyIndex(front, k);
             Remove(front, k) == if i >= 0 then front[..i] + front[i + 1..] else front
    ensures var i := KeyIndex(d, k);
            Remove(d, k) == if i >= 0 then d[..i] + d[i + 1..] else d
  {
    var front := d[..|d| - 1];
    var last := d[|d| - 1];
    RemoveSnoc(d, k);
    assert Remove(d, k) == Remove(front, k) + [last];
    var i := KeyIndex(front, k);
    assert KeyIndex(d, k) == i;
    if i >= 0 {
      assert Remove(front, k) == front[..i] + front[i + 1..];
      SnocDropAt(d, i);
    } else {
      assert Remove(front, k) == front;
      assert front + [last] == d;
    }
  }

  /** Dropping an entry before the last commutes with appending the last. */
  lemma SnocDropAt<V>(d: Dict<V>, i: int)
    requires 0 <= i < |d| - 1
    ensures var front := d[..|d| - 1];
            front[..i] + front[i + 1..] + [d[|d| - 1]] == d[..i] + d[i + 1..]
  {
  }

  /** `d.setdefault(k, v)` as it changes `d`. */
  function SetDefault<V>(d: Dict<V>, k: string, v: V): (r: Dict<V>)
    ensures HasKey(r, k)
    ensures HasKey(d, k) ==> r == d
    ensures !HasKey(d, k) ==> Get(r, k) == Some(v)
    ensures forall k' :: k' != k ==> Get(r, k') == Get(d, k')
  {
    if HasKey(d, k) then d else Set(d, k, v)
  }

  /** The keys of a dict written out entry by entry. */
  lemma KeysOfFive<V>(d: Dict<V>, a: string, b: string, c: string, e: string, f: string)
    requires |d| == 5 && d[0].0 == a && d[1].0 == b && d[2].0 == c && d[3].0 == e && d[4].0 == f
    ensures Keys(d) == {a, b, c, e, f}
  {
  }

  lemma KeysOfSix<V>(d: Dict<V>, a: string, b: string, c: string, e: string, f: string, g: string)
    requires |d| == 6 && d[0].0 == a && d[1].0 == b && d[2].0 == c && d[3].0 == e && d[4].0 == f
    requires d[5].0 == g
    ensures Keys(d) == {a, b, c, e, f, g}
  {
  }

  /** Looking a key up in a dict with one entry in front: the rest wins. */
  lemma GetCons<V>(x: (string, V), rest: Dict<V>, k: string)
    ensures Get([x] + rest, k)
            == if HasKey(rest, k) then Get(rest, k) else if x.0 == k then Some(x.1) else None
  {
    var d := [x] + rest;
    assert d[1..] == rest;
    var j := KeyIndex(rest, k);
    if j >= 0 {
      KeyIndexIs(d, k, j + 1);
    } else if x.0 == k {
      KeyIndexIs(d, k, 0);
    } else {
      KeyIndexIs(d, k, -1);
    }
  }
}
