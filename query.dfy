/**
 * The two query shapes the handlers use over a table held as a map from
 * row id to row: `filter_by(...).first()` and `filter_by(...).all()`.
 * Rows are visited in ascending id order, as SQLite's rowid scan does.
 */
module Query {
  import opened Wrappers

  /** Every id of the table is a positive id below the scan bound `next`. */
  predicate IdsBelow<V>(m: map<int, V>, next: int) {
    forall k :: k in m ==> 1 <= k < next
  }

  /**
   * The id SQLite gives a row inserted into a table whose integer primary
   * key is declared without AUTOINCREMENT: one more than the largest id in
   * use, or 1 for an empty table. The ids in use lie below `bound`, and the
   * search runs down from there.
   */
  function NextRowid<V>(m: map<int, V>, bound: int): (r: int)
    ensures 1 <= r && (r <= bound || r == 1)
    ensures r == 1 || r - 1 in m
    ensures IdsBelow(m, bound) ==> IdsBelow(m, r)
    decreases bound
  {
    if bound <= 1 then 1
    else if bound - 1 in m then bound
    else NextRowid(m, bound - 1)
  }

  /** `.first()`: the least id in [lo, hi) whose row satisfies `p`. */
  function FirstKey<V>(m: map<int, V>, p: V -> bool, lo: int, hi: int): (r: Option<int>)
    decreases hi - lo
    ensures r.Some? ==> lo <= r.value < hi && r.value in m && p(m[r.value])
    ensures r.Some? ==> forall k :: lo <= k < r.value && k in m ==> !p(m[k])
    ensures r.None? ==> forall k :: lo <= k < hi && k in m ==> !p(m[k])
  {
    if lo >= hi then None
    else if lo in m && p(m[lo]) then Some(lo)
    else FirstKey(m, p, lo + 1, hi)
  }

  /** `.all()`: the ids in [lo, hi) whose rows satisfy `p`, ascending. */
  function SelectKeys<V>(m: map<int, V>, p: V -> bool, lo: int, hi: int): (r: seq<int>)
    decreases hi - lo
    ensures forall k :: k in r <==> lo <= k < hi && k in m && p(m[k])
    ensures forall i, j :: 0 <= i < j < |r| ==> r[i] < r[j]
  {
    if lo >= hi then []
    else if lo in m && p(m[lo]) then
      var rest := SelectKeys(m, p, lo + 1, hi);
      assert forall i :: 0 <= i < |rest| ==> rest[i] in rest;
      [lo] + rest
    else SelectKeys(m, p, lo + 1, hi)
  }

  /** The rows stored under `keys`, in the order of `keys`. */
  function Pick<V>(m: map<int, V>, keys: seq<int>): (r: seq<V>)
    requires forall i :: 0 <= i < |keys| ==> keys[i] in m
    ensures |r| == |keys|
    ensures forall i :: 0 <= i < |keys| ==> r[i] == m[keys[i]]
  {
    seq(|keys|, i requires 0 <= i < |keys| => m[keys[i]])
  }

  /** The rows `.all()` returns. */
  function Select<V>(m: map<int, V>, p: V -> bool, lo: int, hi: int): (r: seq<V>)
  {
    var ks := SelectKeys(m, p, lo, hi);
    assert forall i :: 0 <= i < |ks| ==> ks[i] in ks;
    Pick(m, ks)
  }

  /** Two filters that agree on every row in range select the same ids. */
  lemma {:induction false} SelectKeysCongruent<V>(m: map<int, V>, p: V -> bool, q: V -> bool, lo: int, hi: int)
    requires forall k :: lo <= k < hi && k in m ==> (p(m[k]) <==> q(m[k]))
    ensures SelectKeys(m, p, lo, hi) == SelectKeys(m, q, lo, hi)
    decreases hi - lo
  {
    if lo < hi {
      SelectKeysCongruent(m, p, q, lo + 1, hi);
    }
  }

  /** `.first()` is the head of what `.all()` returns. */
  lemma {:induction false} FirstKeyIsFirstSelected<V>(m: map<int, V>, p: V -> bool, lo: int, hi: int)
    ensures var ks := SelectKeys(m, p, lo, hi);
            FirstKey(m, p, lo, hi) == if ks == [] then None else Some(ks[0])
    decreases hi - lo
  {
    if lo < hi && !(lo in m && p(m[lo])) {
      FirstKeyIsFirstSelected(m, p, lo + 1, hi);
    }
  }

  /**
   * Storing a row at `hi` (past every row in range) adds that id
   * at the end of the selection when the row matches, and nothing otherwise.
   */
  lemma {:induction false} SelectKeysAfterInsert<V>(m: map<int, V>, p: V -> bool, lo: int, hi: int, x: V)
    requires lo <= hi
    ensures SelectKeys(m[hi := x], p, lo, hi + 1) == SelectKeys(m, p, lo, hi) + (if p(x) then [hi] else [])
    decreases hi - lo
  {
    var m' := m[hi := x];
    if lo < hi {
      SelectKeysAfterInsert(m, p, lo + 1, hi, x);
      var tail := SelectKeys(m, p, lo + 1, hi) + (if p(x) then [hi] else []);
      if lo in m && p(m[lo]) {
        assert SelectKeys(m', p, lo, hi + 1) == [lo] + tail;
        assert [lo] + tail == [lo] + SelectKeys(m, p, lo + 1, hi) + (if p(x) then [hi] else []);
      }
    }
  }

  /** The same for `.first()`: a stored row at `hi` is found only when nothing below it matches. */
  lemma {:induction false} FirstKeyAfterInsert<V>(m: map<int, V>, p: V -> bool, lo: int, hi: int, x: V)
    requires lo <= hi
    requires FirstKey(m, p, lo, hi).None?
    requires p(x)
    ensures FirstKey(m[hi := x], p, lo, hi + 1) == Some(hi)
    decreases hi - lo
  {
    if lo < hi {
      FirstKeyAfterInsert(m, p, lo + 1, hi, x);
    }
  }

  /** Rewriting a stored row without changing whether it matches leaves `.first()` as it was. */
  lemma {:induction false} FirstKeyUpdate<V>(m: map<int, V>, p: V -> bool, lo: int, hi: int, k: int, x: V)
    requires k in m && p(x) == p(m[k])
    ensures FirstKey(m[k := x], p, lo, hi) == FirstKey(m, p, lo, hi)
    decreases hi - lo
  {
    if lo < hi {
      FirstKeyUpdate(m, p, lo + 1, hi, k, x);
    }
  }

  /** Picking through a freshly stored id appends its row to what the other ids pick. */
  lemma PickAfterInsert<V>(m: map<int, V>, keys: seq<int>, k: int, x: V)
    requires forall i :: 0 <= i < |keys| ==> keys[i] in m && keys[i] != k
    ensures Pick(m[k := x], keys + [k]) == Pick(m, keys) + [x]
  {
    var a, b := Pick(m[k := x], keys + [k]), Pick(m, keys) + [x];
    assert |a| == |b|;
    forall i | 0 <= i < |a| ensures a[i] == b[i] {
      if i < |keys| {
        assert (keys + [k])[i] == keys[i];
      }
    }
  }

  /** Scanning up to the next rowid instead of the bound finds the same rows. */
  lemma NextRowidScan<V>(m: map<int, V>, p: V -> bool, lo: int, bound: int)
    requires IdsBelow(m, bound)
    ensures SelectKeys(m, p, lo, NextRowid(m, bound)) == SelectKeys(m, p, lo, bound)
    ensures FirstKey(m, p, lo, NextRowid(m, bound)) == FirstKey(m, p, lo, bound)
  {
    var id := NextRowid(m, bound);
    if id <= bound {
      SelectKeysAnyBound(m, p, lo, id, bound);
      FirstKeyAnyBound(m, p, lo, id, bound);
    } else {
      SelectKeysAnyBound(m, p, lo, bound, id);
      FirstKeyAnyBound(m, p, lo, bound, id);
    }
  }

  /**
   * Once the row with the largest id is gone, the next rowid is that id
   * again, provided the id just below it is still taken (or it was 1).
   */
  lemma {:induction false} NextRowidReusesTop<V>(m: map<int, V>, bound: int, k: int)
    requires 1 <= k <= bound && (forall j :: j in m ==> j < k) && (k == 1 || k - 1 in m)
    ensures NextRowid(m, bound) == k
    decreases bound
  {
    if 1 < bound && bound - 1 !in m {
      NextRowidReusesTop(m, bound - 1, k);
    }
  }

  /**
   * A matching row inserted under the next rowid comes last in what `.all()`
   * returns, once the scan bound moves to just past it.
   */
  lemma SelectAfterInsert<V>(m: map<int, V>, p: V -> bool, bound: int, x: V)
    requires IdsBelow(m, bound) && p(x)
    ensures var id := NextRowid(m, bound); Select(m[id := x], p, 0, id + 1) == Select(m, p, 0, bound) + [x]
  {
    var id := NextRowid(m, bound);
    SelectKeysAfterInsert(m, p, 0, id, x);
    NextRowidScan(m, p, 0, bound);
    var keys := SelectKeys(m, p, 0, id);
    assert forall i :: 0 <= i < |keys| ==> keys[i] in keys;
    PickAfterInsert(m, keys, id, x);
  }

  /** Which bound past every id a scan uses does not change what `.all()` returns. */
  lemma {:induction false} SelectKeysAnyBound<V>(m: map<int, V>, p: V -> bool, lo: int, h1: int, h2: int)
    requires IdsBelow(m, h1) && h1 <= h2
    ensures SelectKeys(m, p, lo, h1) == SelectKeys(m, p, lo, h2)
    decreases h2 - lo
  {
    if lo >= h1 {
      SelectKeysNone(m, p, lo, h2);
    } else {
      SelectKeysAnyBound(m, p, lo + 1, h1, h2);
    }
  }

  /** The same for `.first()`. */
  lemma {:induction false} FirstKeyAnyBound<V>(m: map<int, V>, p: V -> bool, lo: int, h1: int, h2: int)
    requires IdsBelow(m, h1) && h1 <= h2
    ensures FirstKey(m, p, lo, h1) == FirstKey(m, p, lo, h2)
  {
    SelectKeysAnyBound(m, p, lo, h1, h2);
    FirstKeyIsFirstSelected(m, p, lo, h1);
    FirstKeyIsFirstSelected(m, p, lo, h2);
  }

  /** `.all()` is empty when no row in range matches. */
  lemma {:induction false} SelectKeysNone<V>(m: map<int, V>, p: V -> bool, lo: int, hi: int)
    requires forall k :: lo <= k < hi && k in m ==> !p(m[k])
    ensures SelectKeys(m, p, lo, hi) == []
    decreases hi - lo
  {
    if lo < hi {
      SelectKeysNone(m, p, lo + 1, hi);
    }
  }
}
