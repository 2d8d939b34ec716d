/** Choosing what a sweep destroys: `purge_after <= now ORDER BY purge_after LIMIT ?`. */
module Due {
  import opened Sets
  import opened Tables

  /** How many rows a LIMIT lets through; a negative limit is no limit. */
  function Limited(limit: int, n: nat): nat {
    if 0 <= limit < n then limit else n
  }

  /** `picked` is an answer the query may give: due rows, as many as the limit allows, and
      none left behind that was due before one of them.  Ties are the database's to break. */
  ghost predicate OldestDue<K(!new), C>(rows: map<K, Row<C>>, now: Instant, limit: int, picked: set<K>) {
    var due := DueKeys(rows, now);
    && picked <= due
    && |picked| == Limited(limit, |due|)
    && forall p, q :: p in picked && q in due - picked ==> rows[p].purgeAfter.value <= rows[q].purgeAfter.value
  }

  lemma {:induction false} EarliestExists<K(!new), C>(rows: map<K, Row<C>>, ks: set<K>) returns (first: K)
    requires ks != {} && forall k :: k in ks ==> k in rows && rows[k].purgeAfter.Some?
    ensures first in ks && forall k :: k in ks ==> rows[first].purgeAfter.value <= rows[k].purgeAfter.value
  {
    var x :| x in ks;
    if ks == {x} {
      first := x;
    } else {
      first := EarliestExists(rows, ks - {x});
      if rows[x].purgeAfter.value < rows[first].purgeAfter.value { first := x; }
    }
  }

  lemma {:induction false} SomeOldest<K(!new), C>(rows: map<K, Row<C>>, due: set<K>, n: nat) returns (picked: set<K>)
    requires n <= |due| && forall k :: k in due ==> k in rows && rows[k].purgeAfter.Some?
    ensures picked <= due && |picked| == n
    ensures forall p, q :: p in picked && q in due - picked ==> rows[p].purgeAfter.value <= rows[q].purgeAfter.value
  {
    if n == 0 {
      picked := {};
    } else {
      var earlier := SomeOldest(rows, due, n - 1);
      assert |due - earlier| == |due| - |earlier|;
      var next := EarliestExists(rows, due - earlier);
      picked := earlier + {next};
    }
  }

  /** A sweep takes only what is due, no more than its limit, the longest due before any other; and
      if it takes less than its limit, it takes everything that is due. */
  lemma WhatIsSwept<K(!new), C>(rows: map<K, Row<C>>, now: Instant, limit: int, picked: set<K>)
    requires OldestDue(rows, now, limit, picked)
    ensures forall k :: k in picked ==> k in rows && rows[k].purgeAfter.Some? && rows[k].purgeAfter.value <= now
    ensures 0 <= limit ==> |picked| <= limit
    ensures forall j, k :: j in picked && k in rows && k !in picked && rows[k].purgeAfter.Some?
                           && rows[k].purgeAfter.value <= now ==>
              rows[j].purgeAfter.value <= rows[k].purgeAfter.value
    ensures limit < 0 || |picked| < limit ==>
              forall k :: k in rows && rows[k].purgeAfter.Some? && rows[k].purgeAfter.value <= now ==> k in picked
  {
    var due := DueKeys(rows, now);
    forall k | k in rows && rows[k].purgeAfter.Some? && rows[k].purgeAfter.value <= now ensures k in due {
    }
    if limit < 0 || |picked| < limit { SubsetOfSameSize(picked, due); }
  }

  /** There is always such an answer. */
  lemma OldestExist<K(!new), C>(rows: map<K, Row<C>>, now: Instant, limit: int)
    ensures exists picked :: OldestDue(rows, now, limit, picked)
  {
    var due := DueKeys(rows, now);
    var picked := SomeOldest(rows, due, Limited(limit, |due|));
    assert OldestDue(rows, now, limit, picked);
  }

  /** The answer the database gives, whichever that is. */
  ghost function OldestOf<K(!new), C>(rows: map<K, Row<C>>, now: Instant, limit: int): (picked: set<K>)
    ensures OldestDue(rows, now, limit, picked)
  {
    OldestExist(rows, now, limit);
    var picked :| OldestDue(rows, now, limit, picked);
    picked
  }

  method SelectDue<K(!new), C>(rows: map<K, Row<C>>, now: Instant, limit: int) returns (picked: seq<K>)
    ensures OldestDue(rows, now, limit, ToSet(picked)) && |ToSet(picked)| == |picked|
  {
    var due := DueKeys(rows, now);
    var left := due;
    picked := [];
    while left != {} && !(0 <= limit <= |picked|)
      invariant left <= due && ToSet(picked) == due - left && |picked| + |left| == |due|
      invariant |ToSet(picked)| == |picked| && (0 <= limit ==> |picked| <= limit)
      invariant forall p, q :: p in ToSet(picked) && q in left ==> rows[p].purgeAfter.value <= rows[q].purgeAfter.value
      decreases left
    {
      ghost var first := EarliestExists(rows, left);
      var k :| k in left && forall q :: q in left ==> rows[k].purgeAfter.value <= rows[q].purgeAfter.value;
      assert ToSet(picked + [k]) == ToSet(picked) + {k};
      picked := picked + [k];
      left := left - {k};
    }
  }
}
