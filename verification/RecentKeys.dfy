/** What a terminal pool of fixed size should hold: its most recently opened sessions. */
module RecentKeys {
  import opened Sequences

  datatype Key = Key(session: string, machine: string)

  function Take<T>(n: nat, s: seq<T>): seq<T> {
    if |s| <= n then s else s[..n]
  }

  function IsOtherKey(k: Key): Key -> bool {
    (x: Key) => x != k
  }

  /** The distinct keys of a history, most recently opened first. */
  function MostRecent(history: seq<Key>): seq<Key>
    decreases |history|
  {
    if history == [] then [] else
    var last := history[|history| - 1];
    [last] + Filter(IsOtherKey(last), MostRecent(history[..|history| - 1]))
  }

  /** What one open does to the keys of a pool of at most `limit` entries. */
  function LruStep(keys: seq<Key>, k: Key, limit: nat): seq<Key> {
    Take(limit, [k] + Filter(IsOtherKey(k), keys))
  }

  function LruRun(history: seq<Key>, limit: nat): seq<Key>
    decreases |history|
  {
    if history == [] then [] else LruStep(LruRun(history[..|history| - 1], limit), history[|history| - 1], limit)
  }

  function LastUse(history: seq<Key>, k: Key): (i: int)
    ensures -1 <= i < |history| && (i >= 0 ==> history[i] == k) && (i < 0 ==> k !in history)
    ensures forall j :: i < j < |history| ==> history[j] != k
    decreases |history|
  {
    if history == [] then -1
    else if history[|history| - 1] == k then |history| - 1
    else
      assert history == history[..|history| - 1] + [history[|history| - 1]];
      LastUse(history[..|history| - 1], k)
  }

  ghost predicate ByLastUse(history: seq<Key>, s: seq<Key>) {
    forall i, j :: 0 <= i < j < |s| ==> LastUse(history, s[i]) > LastUse(history, s[j])
  }

  /** MostRecent lists each key of the history once, by last use. */
  lemma {:induction false} MostRecentMeans(history: seq<Key>)
    ensures Distinct(MostRecent(history)) && forall k :: k in MostRecent(history) <==> k in history
    ensures ByLastUse(history, MostRecent(history))
    decreases |history|
  {
    if history != [] {
      var init, last := history[..|history| - 1], history[|history| - 1];
      assert history == init + [last];
      MostRecentMeans(init);
      var before := MostRecent(init);
      FilterDistinct(IsOtherKey(last), before);
      FilterByUse(IsOtherKey(last), init, before);
      UseSnoc(init, last, Filter(IsOtherKey(last), before));
    }
  }

  lemma UseSnoc(init: seq<Key>, last: Key, rest: seq<Key>)
    requires ByLastUse(init, rest) && last !in rest
    ensures ByLastUse(init + [last], [last] + rest)
  {
    var history := init + [last];
    assert history[..|history| - 1] == init;
    forall i | 0 <= i < |rest| ensures LastUse(history, rest[i]) == LastUse(init, rest[i]) { assert rest[i] in rest; }
  }

  lemma {:induction false} FilterByUse(p: Key -> bool, history: seq<Key>, s: seq<Key>)
    requires ByLastUse(history, s)
    ensures ByLastUse(history, Filter(p, s))
    decreases |s|
  {
    if s != [] {
      FilterByUse(p, history, s[1..]);
      var rest := Filter(p, s[1..]);
      forall j | 0 <= j < |rest| ensures LastUse(history, s[0]) > LastUse(history, rest[j]) {
        assert rest[j] in s[1..];
        var b :| 0 <= b < |s[1..]| && s[1..][b] == rest[j];
        assert s[b + 1] == rest[j];
      }
    }
  }

  lemma TakeCons<T>(n: nat, x: T, s: seq<T>)
    ensures Take(n + 1, [x] + s) == [x] + Take(n, s)
  {
  }

  /** Cutting before or after dropping one key makes no difference within the limit. */
  lemma {:induction false} TakeFilter(keys: seq<Key>, k: Key, n: nat)
    requires Distinct(keys)
    ensures Take(n, Filter(IsOtherKey(k), Take(n + 1, keys))) == Take(n, Filter(IsOtherKey(k), keys))
    decreases |keys|
  {
    if keys != [] {
      var x, rest, p := keys[0], keys[1..], IsOtherKey(k);
      assert keys == [x] + rest && x !in rest;
      TakeCons(n, x, rest);
      FilterCons(p, x, Take(n, rest));
      FilterCons(p, x, rest);
      if x == k {
        FilterAll(p, rest);
        FilterAll(p, Take(n, rest));
      } else if n > 0 {
        TakeFilter(rest, k, n - 1);
        TakeCons(n - 1, x, Filter(p, Take(n, rest)));
        TakeCons(n - 1, x, Filter(p, rest));
      }
    }
  }

  /** The pool of size `limit` holds the first `limit` distinct keys of the history. */
  lemma {:induction false} LruIsMostRecent(history: seq<Key>, limit: nat)
    requires limit > 0
    ensures LruRun(history, limit) == Take(limit, MostRecent(history))
    decreases |history|
  {
    if history != [] {
      var init, k := history[..|history| - 1], history[|history| - 1];
      LruIsMostRecent(init, limit);
      MostRecentMeans(init);
      var m := MostRecent(init);
      TakeFilter(m, k, limit - 1);
      TakeCons(limit - 1, k, Filter(IsOtherKey(k), Take(limit, m)));
      TakeCons(limit - 1, k, Filter(IsOtherKey(k), m));
    }
  }

  /** A larger pool holds everything a smaller one does. */
  lemma LargerPoolHoldsMore(history: seq<Key>, small: nat, large: nat)
    requires 0 < small <= large
    ensures LruRun(history, small) <= LruRun(history, large)
  {
    LruIsMostRecent(history, small);
    LruIsMostRecent(history, large);
  }
}
