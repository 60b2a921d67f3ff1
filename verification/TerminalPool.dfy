/**
 The pool of single-view terminals of public/terminal-pool.ts with the parked
 expiry wired to its hooks as public/app.ts does.
 */
module TerminalPool {
  import opened Common
  import opened Sequences
  import opened RecentKeys

  /** An entry object; `create` hands out a new one each time. */
  type Entry = nat

  datatype Slot = Slot(key: Key, entry: Entry)

  /** A time-to-live timer: when the entry was parked, and for how long. */
  datatype Timer = Timer(parkedAt: int, ttl: nat)

  function KeysOf(slots: seq<Slot>): (r: seq<Key>)
    ensures |r| == |slots| && forall i :: 0 <= i < |r| ==> r[i] == slots[i].key
  {
    seq(|slots|, i requires 0 <= i < |slots| => slots[i].key)
  }

  predicate IsPooled(slots: seq<Slot>, e: Entry) {
    exists i :: 0 <= i < |slots| && slots[i].entry == e
  }

  predicate DistinctSlots(slots: seq<Slot>) {
    forall i, j :: 0 <= i < j < |slots| ==> slots[i].key != slots[j].key && slots[i].entry != slots[j].entry
  }

  /** Every created entry is pooled, or was disposed exactly once. */
  ghost predicate Accounted(slots: seq<Slot>, disposed: seq<Entry>, created: nat) {
    && DistinctSlots(slots) && Distinct(disposed)
    && forall e: Entry :: (e < created <==> IsPooled(slots, e) || e in disposed) && !(IsPooled(slots, e) && e in disposed)
  }

  /** The visible entry is the front slot, and the only attached one. */
  ghost predicate OneShown(slots: seq<Slot>, visible: Option<Entry>, attached: set<Entry>) {
    && (visible.Some? ==> slots != [] && slots[0].entry == visible.value)
    && forall e: Entry :: IsPooled(slots, e) ==> (e in attached <==> visible == Some(e))
  }

  predicate IsParked(slots: seq<Slot>, visible: Option<Entry>, e: Entry) {
    IsPooled(slots, e) && visible != Some(e)
  }

  /** The armed timers are those of the parked entries, apart from `except`. */
  ghost predicate ArmedBut(slots: seq<Slot>, visible: Option<Entry>, timers: map<Entry, Timer>, except: Option<Entry>) {
    forall e: Entry :: except != Some(e) ==> (e in timers <==> IsParked(slots, visible, e))
  }

  /** No timer is overdue. */
  ghost predicate OnTime(timers: map<Entry, Timer>, now: int) {
    forall e: Entry :: e in timers ==> timers[e].parkedAt <= now <= timers[e].parkedAt + timers[e].ttl
  }

  /** Every timer left was armed before, or is the one of the entry parked now. */
  predicate TimersKept(before: map<Entry, Timer>, after: map<Entry, Timer>, parked: Option<Entry>, timer: Timer) {
    forall e :: e in after ==> if parked == Some(e) then after[e] == timer else e in before && after[e] == before[e]
  }

  // ----- how the parts change

  function Without(slots: seq<Slot>, i: nat): seq<Slot>
    requires i < |slots|
  {
    slots[..i] + slots[i + 1..]
  }

  lemma PooledWithout(slots: seq<Slot>, i: nat)
    requires DistinctSlots(slots) && i < |slots|
    ensures DistinctSlots(Without(slots, i))
    ensures forall e: Entry :: IsPooled(Without(slots, i), e) <==> IsPooled(slots, e) && e != slots[i].entry
  {
    var rest := Without(slots, i);
    forall j | 0 <= j < |rest| ensures rest[j] == slots[if j < i then j else j + 1] {}
    forall e: Entry ensures IsPooled(rest, e) <==> IsPooled(slots, e) && e != slots[i].entry {
      if IsPooled(slots, e) && e != slots[i].entry {
        var k :| 0 <= k < |slots| && slots[k].entry == e;
        assert rest[if k < i then k else k - 1].entry == e;
      }
      if IsPooled(rest, e) {
        var j :| 0 <= j < |rest| && rest[j].entry == e;
        assert slots[if j < i then j else j + 1].entry == e;
      }
    }
  }

  lemma AccountNew(s: Slot, slots: seq<Slot>, disposed: seq<Entry>, created: nat)
    requires Accounted(slots, disposed, created) && s.entry == created && forall j :: 0 <= j < |slots| ==> slots[j].key != s.key
    ensures Accounted([s] + slots, disposed, created + 1) && !IsPooled(slots, s.entry)
    ensures forall e: Entry :: IsPooled([s] + slots, e) <==> e == s.entry || IsPooled(slots, e)
  {
    PooledCons(s, slots);
    forall j | 0 <= j < |slots| ensures slots[j].entry != s.entry { assert IsPooled(slots, slots[j].entry); }
  }

  function ToFront(slots: seq<Slot>, i: nat): seq<Slot>
    requires i < |slots|
  {
    [slots[i]] + Without(slots, i)
  }

  lemma PooledCons(s: Slot, slots: seq<Slot>)
    ensures forall e: Entry :: IsPooled([s] + slots, e) <==> e == s.entry || IsPooled(slots, e)
  {
    forall e: Entry ensures IsPooled([s] + slots, e) <==> e == s.entry || IsPooled(slots, e) {
      if e == s.entry { assert ([s] + slots)[0].entry == e; }
      if IsPooled(slots, e) {
        var i :| 0 <= i < |slots| && slots[i].entry == e;
        assert ([s] + slots)[i + 1].entry == e;
      }
      if IsPooled([s] + slots, e) {
        var i :| 0 <= i < |slots| + 1 && ([s] + slots)[i].entry == e;
        assert i > 0 ==> slots[i - 1].entry == e;
      }
    }
  }

  lemma PooledToFront(slots: seq<Slot>, i: nat)
    requires DistinctSlots(slots) && i < |slots|
    ensures DistinctSlots(ToFront(slots, i)) && |ToFront(slots, i)| == |slots|
    ensures forall e: Entry :: IsPooled(ToFront(slots, i), e) <==> IsPooled(slots, e)
  {
    PooledWithout(slots, i);
    PooledCons(slots[i], Without(slots, i));
    var rest, all := Without(slots, i), ToFront(slots, i);
    forall j | 0 <= j < |rest| ensures all[j + 1] == rest[j] && rest[j].key != slots[i].key && rest[j].entry != slots[i].entry {
      assert rest[j] == slots[if j < i then j else j + 1];
    }
    assert slots[i].entry == slots[i].entry && IsPooled(slots, slots[i].entry);
  }

  /** findIndex by key, with the length standing for -1. */
  function IndexOf(slots: seq<Slot>, key: Key): (i: nat)
    ensures i <= |slots| && (i < |slots| ==> slots[i].key == key)
    ensures i == |slots| ==> forall j :: 0 <= j < |slots| ==> slots[j].key != key
    decreases |slots|
  {
    if slots == [] || slots[0].key == key then 0 else 1 + IndexOf(slots[1..], key)
  }

  function IndexOfEntry(slots: seq<Slot>, e: Entry): (i: nat)
    ensures i <= |slots| && (i < |slots| ==> slots[i].entry == e)
    ensures i == |slots| ==> !IsPooled(slots, e)
    decreases |slots|
  {
    if slots == [] || slots[0].entry == e then 0 else 1 + IndexOfEntry(slots[1..], e)
  }

  // ----- the keys

  lemma {:induction false} FilterOut(keys: seq<Key>, i: nat)
    requires Distinct(keys) && i < |keys|
    ensures Filter(IsOtherKey(keys[i]), keys) == keys[..i] + keys[i + 1..]
    decreases i
  {
    if i == 0 {
      assert keys[0] !in keys[1..];
      FilterAll(IsOtherKey(keys[0]), keys[1..]);
    } else {
      FilterOut(keys[1..], i - 1);
      assert [keys[0]] + (keys[1..][..i - 1] + keys[1..][i..]) == keys[..i] + keys[i + 1..];
    }
  }

  lemma KeysWithout(slots: seq<Slot>, i: nat)
    requires DistinctSlots(slots) && i < |slots|
    ensures KeysOf(Without(slots, i)) == Filter(IsOtherKey(slots[i].key), KeysOf(slots))
  {
    FilterOut(KeysOf(slots), i);
  }

  /** A hit: the slot goes to the front and the tail beyond the limit goes. */
  lemma HitKeys(slots: seq<Slot>, i: nat, limit: nat)
    requires DistinctSlots(slots) && i < |slots|
    ensures KeysOf(Take(limit, ToFront(slots, i))) == LruStep(KeysOf(slots), slots[i].key, limit)
  {
    KeysWithout(slots, i);
    KeysCons(slots[i], Without(slots, i));
    KeysTake(limit, ToFront(slots, i));
  }

  /** A miss: room is made for the new slot at the front. */
  lemma MissKeys(slots: seq<Slot>, s: Slot, limit: nat)
    requires limit > 0 && forall j :: 0 <= j < |slots| ==> slots[j].key != s.key
    ensures KeysOf([s] + Take(limit - 1, slots)) == LruStep(KeysOf(slots), s.key, limit)
  {
    FilterAll(IsOtherKey(s.key), KeysOf(slots));
    TakeCons(limit - 1, s.key, KeysOf(slots));
    KeysCons(s, Take(limit - 1, slots));
    KeysTake(limit - 1, slots);
  }

  lemma KeysCons(s: Slot, slots: seq<Slot>)
    ensures KeysOf([s] + slots) == [s.key] + KeysOf(slots)
  {
  }

  lemma KeysTake(n: nat, slots: seq<Slot>)
    ensures KeysOf(Take(n, slots)) == Take(n, KeysOf(slots))
  {
  }

  function Limit(capacity: int): (r: nat)
    ensures r >= 1 && r >= capacity && (r == 1 || r == capacity)
  {
    if capacity > 1 then capacity else 1
  }

  /** The slots left by evictWhere. */
  function IsKept(doomed: seq<Slot>): Slot -> bool {
    (s: Slot) => s !in doomed
  }

  function IsOtherSlot(s: Slot): Slot -> bool {
    (x: Slot) => x != s
  }

  function EntriesOf(slots: seq<Slot>): (r: seq<Entry>)
    ensures |r| == |slots| && forall i :: 0 <= i < |r| ==> r[i] == slots[i].entry
  {
    seq(|slots|, i requires 0 <= i < |slots| => slots[i].entry)
  }

  function VisibleAfter(visible: Option<Entry>, s: Slot): Option<Entry> {
    if visible == Some(s.entry) then None else visible
  }

  function VisibleAfterAll(visible: Option<Entry>, doomed: seq<Slot>): Option<Entry>
    decreases |doomed|
  {
    if doomed == [] then visible
    else VisibleAfter(VisibleAfterAll(visible, doomed[..|doomed| - 1]), doomed[|doomed| - 1])
  }

  lemma {:induction false} VisibleIsDropped(visible: Option<Entry>, doomed: seq<Slot>)
    ensures VisibleAfterAll(visible, doomed) == if visible.Some? && IsPooled(doomed, visible.value) then None else visible
    decreases |doomed|
  {
    if doomed != [] {
      var init := doomed[..|doomed| - 1];
      VisibleIsDropped(visible, init);
      if visible.Some? {
        if IsPooled(doomed, visible.value) {
          var i :| 0 <= i < |doomed| && doomed[i].entry == visible.value;
          if i < |init| { assert init[i].entry == visible.value; }
        }
        if IsPooled(init, visible.value) {
          var i :| 0 <= i < |init| && init[i].entry == visible.value;
          assert doomed[i].entry == visible.value;
        }
      }
    }
  }

  /** The entries are where they were: no slot but old ones. */
  predicate FromThese(slots: seq<Slot>, before: seq<Slot>) {
    forall s :: s in slots ==> s in before
  }

  /** What evictMachine and evictHidden select. */
  function HiddenOf(machine: Option<string>, visible: Option<Entry>): Slot -> bool {
    (s: Slot) => (machine.Some? ==> s.key.machine == machine.value) && visible != Some(s.entry)
  }

  lemma KeptAndDoomed(p: Slot -> bool, slots: seq<Slot>)
    ensures |Filter(IsKept(Filter(p, slots)), slots)| + |Filter(p, slots)| == |slots|
  {
    FilterSplits(p, IsKept(Filter(p, slots)), slots);
  }

  lemma SlotIndex(slots: seq<Slot>, s: Slot, i: nat)
    requires DistinctSlots(slots) && s in slots && i == IndexOfEntry(slots, s.entry)
    ensures i < |slots| && slots[i] == s
  {
    var j :| 0 <= j < |slots| && slots[j] == s;
    assert IsPooled(slots, s.entry);
    assert i == j;
  }

  lemma {:induction false} DropSlot(slots: seq<Slot>, i: nat)
    requires DistinctSlots(slots) && i < |slots|
    ensures Without(slots, i) == Filter(IsOtherSlot(slots[i]), slots)
    decreases i
  {
    if i == 0 {
      forall s | s in slots[1..] ensures IsOtherSlot(slots[0])(s) {
        var j :| 0 <= j < |slots[1..]| && slots[1..][j] == s;
        assert slots[0].entry != slots[j + 1].entry;
      }
      FilterAll(IsOtherSlot(slots[0]), slots[1..]);
    } else {
      assert slots[0].entry != slots[i].entry;
      DropSlot(slots[1..], i - 1);
      assert [slots[0]] + Without(slots[1..], i - 1) == Without(slots, i);
    }
  }

  function IsOtherEntry(e: Entry): Slot -> bool {
    (s: Slot) => s.entry != e
  }

  lemma EntryFilter(slots: seq<Slot>, i: nat)
    requires DistinctSlots(slots) && i < |slots|
    ensures Without(slots, i) == Filter(IsOtherEntry(slots[i].entry), slots)
  {
    DropSlot(slots, i);
    forall s | s in slots ensures IsOtherEntry(slots[i].entry)(s) == IsOtherSlot(slots[i])(s) {
      var j :| 0 <= j < |slots| && slots[j] == s;
      assert j < i ==> slots[j].entry != slots[i].entry;
      assert i < j ==> slots[i].entry != slots[j].entry;
    }
    FilterSame(IsOtherEntry(slots[i].entry), IsOtherSlot(slots[i]), slots);
  }

  lemma {:induction false} KeptStep(doomed: seq<Slot>, n: nat, slots: seq<Slot>)
    requires n < |doomed|
    ensures Filter(IsOtherSlot(doomed[n]), Filter(IsKept(doomed[..n]), slots)) == Filter(IsKept(doomed[..n + 1]), slots)
    decreases |slots|
  {
    if slots != [] {
      KeptStep(doomed, n, slots[1..]);
      var f := Filter(IsKept(doomed[..n]), slots[1..]);
      assert ([slots[0]] + f)[1..] == f;
      assert doomed[..n + 1] == doomed[..n] + [doomed[n]];
    }
  }

  /** One round of evictWhere. */
  lemma EvictStep(doomed: seq<Slot>, n: nat, slots: seq<Slot>, visible: Option<Entry>, disposed: seq<Entry>)
    requires n < |doomed| && Distinct(doomed) && doomed[n] in slots
    ensures doomed[n] in Filter(IsKept(doomed[..n]), slots)
    ensures Filter(IsOtherSlot(doomed[n]), Filter(IsKept(doomed[..n]), slots)) == Filter(IsKept(doomed[..n + 1]), slots)
    ensures VisibleAfterAll(visible, doomed[..n + 1]) == VisibleAfter(VisibleAfterAll(visible, doomed[..n]), doomed[n])
    ensures disposed + EntriesOf(doomed[..n + 1]) == disposed + EntriesOf(doomed[..n]) + [doomed[n].entry]
  {
    assert doomed[n] !in doomed[..n];
    KeptStep(doomed, n, slots);
    assert doomed[..n + 1][..n] == doomed[..n];
  }

  datatype Event =
    | Opens(key: Key, capacity: int, ttl: nat)
    | Shows(key: Key, capacity: int, ttl: nat)
    | Parks(ttl: nat)
    | Evicts(key: Key)
    | EvictsEntry(e: Entry)
    | EvictsMachine(machine: string)
    | EvictsHidden
    | Clears
    | Hides(delay: nat)
    | Reveals
    | Fires(e: Entry)
    | FiresHidden
    | Passes(t: int)

  class Pool {
    var slots: seq<Slot>
    var visible: Option<Entry>
    /** What the attach, detach and dispose hooks have been given. */
    var attached: set<Entry>
    var disposed: seq<Entry>
    var created: nat
    /** The parked expiry, and the clock its timers go by. */
    var ttlTimers: map<Entry, Timer>
    var hiddenTimer: Option<int>
    var now: int

    ghost predicate Valid()
      reads this
    {
      ValidBut(None)
    }

    ghost predicate ValidBut(except: Option<Entry>)
      reads this
    {
      && Accounted(slots, disposed, created)
      && OneShown(slots, visible, attached)
      && ArmedBut(slots, visible, ttlTimers, except)
      && OnTime(ttlTimers, now)
      && (hiddenTimer.Some? ==> now <= hiddenTimer.value)
    }

    ghost function Keys(): seq<Key>
      reads this
    {
      KeysOf(slots)
    }

    constructor (start: int)
      ensures Valid() && Keys() == [] && visible == None && created == 0 && now == start
    {
      slots, visible, attached, disposed, created := [], None, {}, [], 0;
      ttlTimers, hiddenTimer, now := map[], None, start;
    }

    /** remove: splices a slot out and disposes its entry. */
    method Remove(i: nat)
      requires i < |slots| && ValidBut(Some(slots[i].entry))
      modifies `slots, `visible, `disposed, `ttlTimers
      ensures Valid() && slots == Without(old(slots), i)
      ensures visible == if old(visible) == Some(old(slots)[i].entry) then None else old(visible)
      ensures disposed == old(disposed) + [old(slots)[i].entry] && ttlTimers == old(ttlTimers) - {old(slots)[i].entry}
    {
      PooledWithout(slots, i);
      var e := slots[i].entry;
      assert IsPooled(slots, e);
      slots := Without(slots, i);
      if visible == Some(e) { visible := None; }
      disposed := disposed + [e];
      ttlTimers := ttlTimers - {e};
    }

    /** evictHiddenWhile(() => slots.length > limit). */
    method EvictHiddenWhile(limit: nat)
      requires Valid() && (visible.Some? ==> limit > 0)
      modifies `slots, `visible, `disposed, `ttlTimers
      ensures Valid() && slots == Take(limit, old(slots)) && visible == old(visible) && old(disposed) <= disposed
      ensures TimersKept(old(ttlTimers), ttlTimers, None, Timer(now, 0))
    {
      var index := |slots|;
      while index > 0 && |slots| > limit
        invariant Valid() && visible == old(visible) && old(disposed) <= disposed
        invariant TimersKept(old(ttlTimers), ttlTimers, None, Timer(now, 0))
        invariant |slots| <= limit ==> slots == Take(limit, old(slots))
        invariant index <= |old(slots)| && (|slots| > limit ==> index == |slots| && slots == old(slots)[..index])
        decreases index
      {
        index := index - 1;
        assert visible == Some(slots[index].entry) ==> index == 0 by {
          if visible.Some? && index > 0 { assert slots[0].entry != slots[index].entry; }
        }
        if visible != Some(slots[index].entry) { RemoveLast(); }
      }
    }

    method RemoveLast()
      requires Valid() && slots != [] && visible != Some(slots[|slots| - 1].entry)
      modifies `slots, `visible, `disposed, `ttlTimers
      ensures Valid() && slots == old(slots)[..|old(slots)| - 1] && visible == old(visible) && old(disposed) <= disposed
      ensures TimersKept(old(ttlTimers), ttlTimers, None, Timer(now, 0))
    {
      Remove(|slots| - 1);
    }

    /** The work of park: the visible entry is detached, and its timer armed. */
    method DetachVisible(ttl: nat) returns (parked: Option<Entry>)
      modifies `visible, `attached, `ttlTimers
      ensures parked == old(visible) && visible == None
      ensures parked.None? ==> attached == old(attached) && ttlTimers == old(ttlTimers)
      ensures parked.Some? ==> attached == old(attached) - {parked.value} && ttlTimers == old(ttlTimers)[parked.value := Timer(now, ttl)]
    {
      parked := visible;
      if parked.None? { return; }
      visible := None;
      attached := attached - {parked.value};
      ttlTimers := ttlTimers[parked.value := Timer(now, ttl)];
    }

    /** park: the visible entry stays pooled, with its timer armed. */
    method Park(ttl: nat) returns (parked: Option<Entry>)
      requires Valid()
      modifies `visible, `attached, `ttlTimers
      ensures Valid() && parked == old(visible) && visible == None
      ensures ttlTimers == if parked.Some? then old(ttlTimers)[parked.value := Timer(now, ttl)] else old(ttlTimers)
    {
      if visible.Some? { assert slots[0].entry == visible.value && IsPooled(slots, visible.value); }
      parked := DetachVisible(ttl);
    }

    /** The attach hook: the entry is shown and its timer cleared. */
    method Attach(e: Entry)
      modifies `visible, `attached, `ttlTimers
      ensures visible == Some(e) && attached == old(attached) + {e} && ttlTimers == old(ttlTimers) - {e}
    {
      visible := Some(e);
      ttlTimers := ttlTimers - {e};
      attached := attached + {e};
    }

    /** The part of show before the eviction: the slot goes to the front and is shown. */
    method BringToFront(i: nat, ttl: nat)
      requires Valid() && i < |slots|
      modifies `slots, `visible, `attached, `ttlTimers
      ensures Valid() && slots == ToFront(old(slots), i) && visible == Some(old(slots)[i].entry)
      ensures TimersKept(old(ttlTimers), ttlTimers, old(visible), Timer(now, ttl)) && FromThese(slots, old(slots))
    {
      PooledToFront(slots, i);
      var e := slots[i].entry;
      assert IsPooled(slots, e);
      if visible.Some? { assert slots[0].entry == visible.value && IsPooled(slots, visible.value); }
      slots := ToFront(slots, i);
      if visible != Some(e) {
        var _ := DetachVisible(ttl);
        Attach(e);
      }
    }

    /** show: hit-only. */
    method Show(key: Key, capacity: int, ttl: nat) returns (entry: Option<Entry>)
      requires Valid()
      modifies `slots, `visible, `attached, `disposed, `ttlTimers
      ensures Valid()
      ensures key in old(Keys()) <==> entry.Some?
      ensures entry.None? ==> slots == old(slots) && visible == old(visible) && disposed == old(disposed)
                              && attached == old(attached) && ttlTimers == old(ttlTimers)
      ensures entry.Some? ==> Slot(key, entry.value) in old(slots) && visible == entry
                              && Keys() == LruStep(old(Keys()), key, Limit(capacity))
      ensures FromThese(slots, old(slots)) && old(disposed) <= disposed
      ensures TimersKept(old(ttlTimers), ttlTimers, old(visible), Timer(now, ttl))
    {
      var i := IndexOf(slots, key);
      if i == |slots| { return None; }
      assert KeysOf(slots)[i] == key;
      HitKeys(slots, i, Limit(capacity));
      entry := Some(slots[i].entry);
      assert slots[i] == Slot(key, slots[i].entry);
      BringToFront(i, ttl);
      ghost var before := slots;
      EvictHiddenWhile(Limit(capacity));
      assert FromThese(slots, before);
    }

    /** The part of open after a miss. */
    method CreateFront(key: Key) returns (entry: Entry)
      requires Valid() && visible == None && forall j :: 0 <= j < |slots| ==> slots[j].key != key
      modifies `slots, `visible, `attached, `ttlTimers, `created
      ensures Valid() && entry == old(created) && created == old(created) + 1
      ensures visible == Some(entry) && slots == [Slot(key, entry)] + old(slots) && ttlTimers == old(ttlTimers) - {entry}
    {
      entry := created;
      AccountNew(Slot(key, entry), slots, disposed, created);
      assert entry !in ttlTimers;
      created := created + 1;
      slots := [Slot(key, entry)] + slots;
      Attach(entry);
    }

    /** open: a pool hit, or a new entry at the front; the keys follow LruStep either way. */
    method Open(key: Key, capacity: int, ttl: nat) returns (entry: Entry, hit: bool)
      requires Valid()
      modifies `slots, `visible, `attached, `disposed, `ttlTimers, `created
      ensures Valid() && visible == Some(entry)
      ensures Keys() == LruStep(old(Keys()), key, Limit(capacity))
      ensures hit <==> key in old(Keys())
      ensures hit ==> Slot(key, entry) in old(slots) && created == old(created)
      ensures !hit ==> entry == old(created) && created == old(created) + 1
      ensures FromThese(slots, [Slot(key, entry)] + old(slots)) && old(disposed) <= disposed
      ensures TimersKept(old(ttlTimers), ttlTimers, old(visible), Timer(now, ttl))
    {
      var shown := Show(key, capacity, ttl);
      hit := shown.Some?;
      if hit {
        entry := shown.value;
      } else {
        entry := OpenNew(key, capacity, ttl);
      }
    }

    /** open after a miss: the visible entry is parked, and room is made. */
    method OpenNew(key: Key, capacity: int, ttl: nat) returns (entry: Entry)
      requires Valid() && key !in Keys()
      modifies `slots, `visible, `attached, `disposed, `ttlTimers, `created
      ensures Valid() && visible == Some(entry) && entry == old(created) && created == old(created) + 1
      ensures Keys() == LruStep(old(Keys()), key, Limit(capacity)) && FromThese(slots, [Slot(key, entry)] + old(slots))
      ensures old(disposed) <= disposed && TimersKept(old(ttlTimers), ttlTimers, old(visible), Timer(now, ttl))
    {
      ghost var before := slots;
      forall j | 0 <= j < |slots| ensures slots[j].key != key { assert KeysOf(slots)[j] == slots[j].key; }
      var _ := Park(ttl);
      EvictHiddenWhile(Limit(capacity) - 1);
      entry := CreateFront(key);
      MissKeys(before, Slot(key, entry), Limit(capacity));
      assert FromThese(Take(Limit(capacity) - 1, before), before);
    }

    /** Opening a history of keys from an empty pool leaves its most recent distinct keys. */
    method OpenAll(history: seq<Key>, capacity: int, ttl: nat)
      requires Valid() && Keys() == []
      modifies this
      ensures Valid() && Keys() == Take(Limit(capacity), MostRecent(history))
    {
      for i := 0 to |history|
        invariant Valid() && Keys() == LruRun(history[..i], Limit(capacity))
      {
        assert history[..i + 1][..i] == history[..i];
        var _, _ := Open(history[i], capacity, ttl);
      }
      assert history[..|history|] == history;
      LruIsMostRecent(history, Limit(capacity));
    }

    // ----- evictions

    method Evict(key: Key) returns (found: bool)
      requires Valid()
      modifies `slots, `visible, `disposed, `ttlTimers
      ensures Valid() && (found <==> key in old(Keys()))
      ensures Keys() == Filter(IsOtherKey(key), old(Keys())) && FromThese(slots, old(slots))
      ensures TimersKept(old(ttlTimers), ttlTimers, None, Timer(now, 0))
      ensures visible == if old(visible).Some? && IsPooled(slots, old(visible).value) then old(visible) else None
      ensures !found ==> slots == old(slots) && visible == old(visible) && disposed == old(disposed)
    {
      var i := IndexOf(slots, key);
      if i == |slots| {
        forall k | k in Keys() ensures k != key { var j :| 0 <= j < |slots| && KeysOf(slots)[j] == k; }
        FilterAll(IsOtherKey(key), Keys());
        return false;
      }
      assert KeysOf(slots)[i] == key;
      KeysWithout(slots, i);
      Remove(i);
      found := true;
    }

    method EvictEntry(e: Entry) returns (found: bool)
      requires ValidBut(Some(e)) && (e in ttlTimers ==> IsParked(slots, visible, e))
      modifies `slots, `visible, `disposed, `ttlTimers
      ensures found <==> old(IsPooled(slots, e))
      ensures found ==> Valid() && slots == Filter(IsOtherEntry(e), old(slots)) && disposed == old(disposed) + [e]
      ensures visible == if found && old(visible) == Some(e) then None else old(visible)
      ensures ttlTimers == if found then old(ttlTimers) - {e} else old(ttlTimers)
      ensures !found ==> Valid() && slots == old(slots) && visible == old(visible) && disposed == old(disposed)
    {
      var i := IndexOfEntry(slots, e);
      if i == |slots| { return false; }
      EntryFilter(slots, i);
      Remove(i);
      found := true;
    }

    /** remove(slots.indexOf(slot)). */
    method RemoveSlot(s: Slot)
      requires Valid() && s in slots
      modifies `slots, `visible, `disposed, `ttlTimers
      ensures Valid() && slots == Filter(IsOtherSlot(s), old(slots))
      ensures visible == VisibleAfter(old(visible), s)
      ensures disposed == old(disposed) + [s.entry] && ttlTimers == old(ttlTimers) - {s.entry}
    {
      var i := IndexOfEntry(slots, s.entry);
      SlotIndex(slots, s, i);
      DropSlot(slots, i);
      Remove(i);
    }

    /** evictWhere: `doomed` are the slots its predicate selects. */
    method EvictWhere(doomed: seq<Slot>)
      requires Valid() && Distinct(doomed) && forall s :: s in doomed ==> s in slots
      modifies `slots, `visible, `disposed, `ttlTimers
      ensures Valid() && slots == Filter(IsKept(doomed), old(slots))
      ensures visible == VisibleAfterAll(old(visible), doomed)
      ensures disposed == old(disposed) + EntriesOf(doomed) && TimersKept(old(ttlTimers), ttlTimers, None, Timer(now, 0))
    {
      FilterAll(IsKept(doomed[..0]), slots);
      for n := 0 to |doomed|
        invariant Valid() && slots == Filter(IsKept(doomed[..n]), old(slots))
        invariant visible == VisibleAfterAll(old(visible), doomed[..n])
        invariant disposed == old(disposed) + EntriesOf(doomed[..n]) && TimersKept(old(ttlTimers), ttlTimers, None, Timer(now, 0))
      {
        EvictStep(doomed, n, old(slots), old(visible), old(disposed));
        RemoveSlot(doomed[n]);
      }
      assert doomed[..|doomed|] == doomed;
    }

    /** evictMachine: the hidden entries of one machine go. */
    method EvictMachine(machine: string) returns (count: nat)
      requires Valid()
      modifies `slots, `visible, `disposed, `ttlTimers
      ensures Valid() && visible == old(visible)
      ensures slots == Filter(IsKept(Filter(HiddenOf(Some(machine), old(visible)), old(slots))), old(slots))
      ensures forall s :: s in slots <==> s in old(slots) && (s.key.machine != machine || old(visible) == Some(s.entry))
      ensures count == |old(slots)| - |slots| && TimersKept(old(ttlTimers), ttlTimers, None, Timer(now, 0))
    {
      count := EvictHiddenOf(Some(machine));
    }

    /** evictHidden: all hidden entries go. */
    method EvictHidden() returns (count: nat)
      requires Valid()
      modifies `slots, `visible, `disposed, `ttlTimers
      ensures Valid() && visible == old(visible)
      ensures forall e: Entry :: IsPooled(slots, e) ==> visible == Some(e)
      ensures ttlTimers == map[] && count == |old(slots)| - |slots|
    {
      count := EvictHiddenOf(None);
      forall e: Entry | IsPooled(slots, e) ensures visible == Some(e) {
        var i :| 0 <= i < |slots| && slots[i].entry == e;
        assert slots[i] in slots;
      }
    }

    method EvictHiddenOf(machine: Option<string>) returns (count: nat)
      requires Valid()
      modifies `slots, `visible, `disposed, `ttlTimers
      ensures Valid() && visible == old(visible)
      ensures slots == Filter(IsKept(Filter(HiddenOf(machine, old(visible)), old(slots))), old(slots))
      ensures count == |old(slots)| - |slots| && TimersKept(old(ttlTimers), ttlTimers, None, Timer(now, 0))
      ensures disposed == old(disposed) + EntriesOf(Filter(HiddenOf(machine, old(visible)), old(slots)))
    {
      var doomed := Filter(HiddenOf(machine, visible), slots);
      FilterDistinct(HiddenOf(machine, visible), slots);
      KeptAndDoomed(HiddenOf(machine, visible), slots);
      VisibleIsDropped(visible, doomed);
      forall i | 0 <= i < |doomed| ensures visible != Some(doomed[i].entry) { assert doomed[i] in doomed; }
      EvictWhere(doomed);
      count := |doomed|;
    }

    /** clear: every entry goes. */
    method Clear()
      requires Valid()
      modifies `slots, `visible, `disposed, `ttlTimers
      ensures Valid() && slots == [] && visible == None && ttlTimers == map[] && disposed == old(disposed) + EntriesOf(old(slots))
    {
      VisibleIsDropped(visible, slots);
      assert visible.Some? ==> slots[0].entry == visible.value;
      FilterNone(IsKept(slots), slots);
      EvictWhere(slots);
      assert forall e: Entry :: !IsPooled(slots, e);
    }

    /** showAfterReleasingStaleVisible: an entry that was still visible is never the hit. */
    method ShowAfterReleasingStaleVisible(key: Key, capacity: int, ttl: nat) returns (entry: Option<Entry>)
      requires Valid()
      modifies `slots, `visible, `attached, `disposed, `ttlTimers
      ensures Valid() && visible == entry
      ensures entry.Some? ==> entry != old(visible) && Slot(key, entry.value) in old(slots)
      ensures entry.None? ==> forall s :: s in old(slots) && s.key == key ==> old(visible) == Some(s.entry)
      ensures var rest := if old(visible).Some? then old(slots)[1..] else old(slots);
              if entry.None? then slots == rest else Keys() == LruStep(KeysOf(rest), key, Limit(capacity)) && FromThese(slots, rest)
      ensures old(visible).Some? ==> old(disposed) + [old(visible).value] <= disposed
      ensures TimersKept(old(ttlTimers), ttlTimers, None, Timer(now, ttl))
    {
      ReleaseVisible();
      ghost var rest := slots;
      entry := Show(key, capacity, ttl);
      if entry.None? {
        forall j | 0 <= j < |rest| ensures rest[j].key != key { assert KeysOf(rest)[j] == rest[j].key; }
      }
    }

    /** The visible entry is removed. */
    method ReleaseVisible()
      requires Valid()
      modifies `slots, `visible, `disposed, `ttlTimers
      ensures Valid() && visible == None && TimersKept(old(ttlTimers), ttlTimers, None, Timer(now, 0))
      ensures slots == if old(visible).Some? then old(slots)[1..] else old(slots)
      ensures disposed == if old(visible).Some? then old(disposed) + [old(visible).value] else old(disposed)
      ensures forall s :: s in old(slots) ==> s in slots || old(visible) == Some(s.entry)
      ensures forall s :: s in slots ==> s in old(slots) && old(visible) != Some(s.entry)
    {
      if visible.Some? {
        var i := IndexOfEntry(slots, visible.value);
        SlotIndex(slots, slots[0], i);
        EntryFilter(slots, i);
        assert Without(slots, 0) == slots[1..];
        Remove(i);
      }
    }

    // ----- the parked expiry

    /** A time-to-live timer fires: the entry was parked, and is disposed. */
    method TtlFires(e: Entry)
      requires Valid() && e in ttlTimers && now >= ttlTimers[e].parkedAt + ttlTimers[e].ttl
      modifies `slots, `visible, `disposed, `ttlTimers
      ensures Valid() && old(IsParked(slots, visible, e)) && slots == Filter(IsOtherEntry(e), old(slots)) && visible == old(visible)
      ensures disposed == old(disposed) + [e] && ttlTimers == old(ttlTimers) - {e}
    {
      ttlTimers := ttlTimers - {e};
      if visible != Some(e) { var _ := EvictEntry(e); }
    }

    method PageHidden(delay: nat)
      requires Valid()
      modifies `hiddenTimer
      ensures Valid() && hiddenTimer == Some(now + delay)
    {
      hiddenTimer := Some(now + delay);
    }

    method PageVisible()
      requires Valid()
      modifies `hiddenTimer
      ensures Valid() && hiddenTimer == None
    {
      hiddenTimer := None;
    }

    /** The page stayed hidden: nothing is left parked. */
    method HiddenTimerFires()
      requires Valid() && hiddenTimer.Some? && now >= hiddenTimer.value
      modifies `slots, `visible, `disposed, `ttlTimers, `hiddenTimer
      ensures Valid() && visible == old(visible) && hiddenTimer == None
      ensures forall e: Entry :: !IsParked(slots, visible, e)
    {
      hiddenTimer := None;
      var _ := EvictHidden();
    }

    /** Time passes, with timers that fire when they are due. */
    method Advance(t: int)
      requires Valid() && t >= now && (hiddenTimer.Some? ==> t <= hiddenTimer.value)
      requires forall e: Entry :: e in ttlTimers ==> t <= ttlTimers[e].parkedAt + ttlTimers[e].ttl
      modifies `now
      ensures Valid() && now == t
    {
      now := t;
    }

    /** One event, from the app or from a timer that is due. */
    method Step(event: Event)
      requires Valid()
      modifies this
      ensures Valid()
    {
      match event
      case Opens(key, capacity, ttl) => var _, _ := Open(key, capacity, ttl);
      case Shows(key, capacity, ttl) => var _ := ShowAfterReleasingStaleVisible(key, capacity, ttl);
      case Parks(ttl) => var _ := Park(ttl);
      case Evicts(key) => var _ := Evict(key);
      case EvictsEntry(e) => var _ := EvictEntry(e);
      case EvictsMachine(machine) => var _ := EvictMachine(machine);
      case EvictsHidden => var _ := EvictHidden();
      case Clears => Clear();
      case Hides(delay) => PageHidden(delay);
      case Reveals => PageVisible();
      case Fires(e) => if e in ttlTimers && now >= ttlTimers[e].parkedAt + ttlTimers[e].ttl { TtlFires(e); }
      case FiresHidden => if hiddenTimer.Some? && now >= hiddenTimer.value { HiddenTimerFires(); }
      case Passes(t) =>
        if t >= now && (hiddenTimer.Some? ==> t <= hiddenTimer.value)
           && (forall e | e in ttlTimers :: t <= ttlTimers[e].parkedAt + ttlTimers[e].ttl)
        {
          Advance(t);
        }
    }

    /** Whatever happens: one entry is shown and it is in front, every created
        entry is pooled or disposed once, and no parked entry outlives its time. */
    method Run(events: seq<Event>)
      requires Valid()
      modifies this
      ensures Accounted(slots, disposed, created) && OneShown(slots, visible, attached)
      ensures forall e: Entry :: e in ttlTimers <==> IsParked(slots, visible, e)
      ensures forall e: Entry :: IsParked(slots, visible, e) ==> now <= ttlTimers[e].parkedAt + ttlTimers[e].ttl
    {
      for i := 0 to |events|
        invariant Valid()
      {
        Step(events[i]);
      }
    }
  }
}
