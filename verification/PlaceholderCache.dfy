/** The bounded first-in first-out memo in front of the scanner. */
module PlaceholderCache {
  import opened Utf8
  import opened Wrappers
  import opened Placeholder
  import Scanner

  predicate Distinct<K(==)>(xs: seq<K>) {
    forall i, j :: 0 <= i < j < |xs| ==> xs[i] != xs[j]
  }

  /** The last `cap` entries. */
  function Keep<K>(cap: nat, xs: seq<K>): (r: seq<K>)
    ensures |r| == if |xs| <= cap then |xs| else cap
  {
    if |xs| <= cap then xs else xs[|xs| - cap..]
  }

  /** The last ones, in order: those before them are the ones that went. */
  lemma KeptAreTheLast<K>(cap: nat, xs: seq<K>)
    ensures |Keep(cap, xs)| <= cap && xs == xs[..|xs| - |Keep(cap, xs)|] + Keep(cap, xs)
    ensures |Keep(cap, xs)| < cap ==> Keep(cap, xs) == xs
  {
  }

  /** The lookups that miss, in order, when each miss is kept until `cap` later misses push it out. */
  function Misses<K(==)>(cap: nat, lookups: seq<K>): (ms: seq<K>) {
    if lookups == [] then []
    else
      var before := Misses(cap, lookups[..|lookups| - 1]);
      var key := lookups[|lookups| - 1];
      if key in Keep(cap, before) then before else before + [key]
  }

  lemma KeepAppend<K>(cap: nat, ms: seq<K>, key: K)
    requires cap > 0
    ensures Keep(cap, Keep(cap, ms) + [key]) == Keep(cap, ms + [key])
  {
  }

  lemma KeepDistinct<K>(cap: nat, ms: seq<K>, key: K)
    requires cap > 0 && Distinct(Keep(cap, ms)) && key !in Keep(cap, ms)
    ensures Distinct(Keep(cap, ms + [key])) && key in Keep(cap, ms + [key])
  {
    var kept, was := Keep(cap, ms + [key]), Keep(cap, ms);
    assert kept[|kept| - 1] == key;
    assert forall i :: 0 <= i < |kept| - 1 ==> kept[i] == was[i + |was| + 1 - |kept|];
  }

  /** Over every run of lookups: the memo holds the last min(cap, misses) missed statements, no two of
      them equal, and always the statement looked up last. */
  lemma {:induction false} MemoOverRuns<K>(cap: nat, lookups: seq<K>)
    requires cap > 0
    ensures var kept := Keep(cap, Misses(cap, lookups));
            && Distinct(kept) && |kept| <= cap
            && (lookups != [] ==> lookups[|lookups| - 1] in kept)
    decreases |lookups|
  {
    if lookups != [] {
      MemoOverRuns(cap, lookups[..|lookups| - 1]);
      var before := Misses(cap, lookups[..|lookups| - 1]);
      var key := lookups[|lookups| - 1];
      if key !in Keep(cap, before) {
        KeepDistinct(cap, before, key);
      }
    }
  }

  /** The map and the queue hold the same keys, and the map the right answers. */
  predicate Agree<K(==), V(==)>(entries: map<K, V>, order: seq<K>, answer: K -> V) {
    && (forall key :: key in entries ==> key in order && entries[key] == answer(key))
    && forall i :: 0 <= i < |order| ==> order[i] in entries
  }

  lemma EvictionAgrees<K, V>(entries: map<K, V>, order: seq<K>, answer: K -> V)
    requires Agree(entries, order, answer) && Distinct(order) && order != []
    ensures Agree(entries - {order[0]}, order[1..], answer) && Distinct(order[1..])
  {
    forall key | key in entries && key != order[0] ensures key in order[1..] {
      assert key in order;
    }
  }

  lemma {:induction false} KeysNotMoreThan<K>(keys: set<K>, xs: seq<K>)
    requires forall k :: k in keys ==> k in xs
    ensures |keys| <= |xs|
    decreases |xs|
  {
    if xs == [] {
      assert keys == {};
    } else {
      var rest := keys - {xs[0]};
      forall k | k in rest ensures k in xs[1..] {
        assert k in xs;
      }
      KeysNotMoreThan(rest, xs[1..]);
      assert keys <= rest + {xs[0]};
    }
  }

  /** One miss: the missed key joins the kept ones at the end. */
  lemma MissAppends<K>(cap: nat, before: seq<K>, key: K)
    requires cap > 0 && key !in Keep(cap, Misses(cap, before))
    ensures var kept := Keep(cap, Misses(cap, before));
            Distinct(kept + [key]) && Keep(cap, kept + [key]) == Keep(cap, Misses(cap, before + [key]))
  {
    var missed := Misses(cap, before);
    MemoOverRuns(cap, before);
    KeepAppend(cap, missed, key);
    assert (before + [key])[..|before|] == before;
    assert Misses(cap, before + [key]) == missed + [key];
  }

  lemma InsertionAgrees<K, V>(entries: map<K, V>, order: seq<K>, answer: K -> V, key: K)
    requires Agree(entries, order, answer)
    ensures Agree(entries[key := answer(key)], order + [key], answer)
  {
    assert (order + [key])[|order|] == key;
  }

  class Cache<K(==), V(==)> {
    const cap: nat
    var entries: map<K, V>
    var order: seq<K>
    ghost const answer: K -> V
    ghost var lookups: seq<K>

    ghost predicate Valid()
      reads this
    {
      && cap > 0
      && order == Keep(cap, Misses(cap, lookups))
      && Agree(entries, order, answer)
    }

    constructor (requested: nat, ghost answer: K -> V)
      ensures Valid() && lookups == [] && this.answer == answer
      ensures cap == if requested == 0 then 1 else requested
    {
      cap := if requested < 1 then 1 else requested;
      entries, order, lookups := map[], [], [];
      this.answer := answer;
    }

    lemma Bounded()
      requires Valid()
      ensures |entries| <= cap
    {
      KeysNotMoreThan(entries.Keys, order);
      assert |entries| == |entries.Keys|;
    }

    method Hit(key: K) returns (r: Option<V>)
      requires Valid()
      modifies this`lookups
      ensures r.None? ==> key !in order && lookups == old(lookups)
      ensures r.Some? ==> Valid() && r.value == answer(key) && lookups == old(lookups) + [key]
    {
      if key !in entries {
        return None;
      }
      ghost var before := lookups;
      lookups := lookups + [key];
      assert lookups[..|lookups| - 1] == before;
      r := Some(entries[key]);
    }

    method Insert(key: K, value: V)
      requires Valid() && key !in order && value == answer(key)
      modifies this
      ensures Valid() && lookups == old(lookups) + [key]
    {
      MissAppends(cap, lookups, key);
      InsertionAgrees(entries, order, answer, key);
      lookups := lookups + [key];
      entries := entries[key := value];
      order := order + [key];
      EvictPastCap();
    }

    /** Drop the oldest entries until the memo fits its cap. */
    method EvictPastCap()
      requires Agree(entries, order, answer) && Distinct(order)
      modifies this`entries, this`order
      ensures order == Keep(cap, old(order)) && Agree(entries, order, answer)
    {
      ghost var k := 0;
      while |order| > cap
        invariant 0 <= k <= |old(order)| && order == old(order)[k..]
        invariant k > 0 ==> |order| >= cap
        invariant Agree(entries, order, answer) && Distinct(order)
      {
        EvictionAgrees(entries, order, answer);
        var evicted := order[0];
        order := order[1..];
        entries := entries - {evicted};
        k := k + 1;
      }
    }
  }

  ghost function Normalized(sql: Str): (out: seq<Byte>) {
    Render(Lex(sql, 0), 1)
  }

  /** `get_or_insert`: answers what a fresh scan would, and keeps the memo's invariant. */
  method GetOrInsert(cache: Cache<Str, seq<Byte>>, sql: Str) returns (normalized: seq<Byte>)
    requires cache.Valid() && cache.answer == Normalized
    modifies cache
    ensures cache.Valid() && cache.lookups == old(cache.lookups) + [sql]
    ensures normalized == Normalized(sql)
    ensures |cache.entries| <= cache.cap
  {
    var hit := cache.Hit(sql);
    if hit.Some? {
      normalized := hit.value;
    } else {
      normalized := Scanner.Scan(sql);
      cache.Insert(sql, normalized);
    }
    cache.Bounded();
  }
}
