/** The limiter as the service runs it: a mutable map of slices over backing arrays that are
    compacted in place.  Every method is proved against RateLimitSpec. */
module RateLimiter {
  import opened Arith
  import opened RateLimitSpec
  import opened Sorting

  // A Go slice starting at index 0 of its backing array; the array's length is its capacity.
  datatype Slice = Slice(data: array<Time>, len: nat)

  datatype KeyAge = KeyAge(key: Key, last: Time)

  // ---- the list evictBatch sorts ---------------------------------------------------

  ghost function KeysOf(ages: seq<KeyAge>): set<Key> {
    set a | a in ages :: a.key
  }

  ghost predicate Distinct(ages: seq<KeyAge>) {
    forall i, j :: 0 <= i < j < |ages| ==> ages[i].key != ages[j].key
  }

  // Every key once, with its newest stamp.
  ghost predicate AgesOf(h: Hits, ages: seq<KeyAge>) {
    && KeysOf(ages) == h.Keys
    && (forall a :: a in ages ==> a.key in h && a.last == Newest(h[a.key]))
    && Distinct(ages)
  }

  ghost predicate SortedByAge(ages: seq<KeyAge>) {
    forall i, j :: 0 <= i < j < |ages| ==> ages[i].last <= ages[j].last
  }

  lemma AgesAppend(h: Hits, h': Hits, ages: seq<KeyAge>, a: KeyAge)
    requires AgesOf(h, ages) && a.key !in h && a.last == Newest(Lookup(h', a.key))
    requires h'.Keys == h.Keys + {a.key} && forall k :: k in h ==> h'[k] == h[k]
    ensures AgesOf(h', ages + [a])
  {
    assert forall b :: b in ages + [a] <==> b in ages || b == a;
    assert forall b :: b in ages ==> b.key in KeysOf(ages);
  }

  // One more key of h collected, out of those still to do.
  lemma AgesNext(h: Hits, todo: set<Key>, ages: seq<KeyAge>, k: Key)
    requires AgesOf(h - todo, ages) && k in todo && k in h
    ensures AgesOf(h - (todo - {k}), ages + [KeyAge(k, Newest(h[k]))])
  {
    AgesAppend(h - todo, h - (todo - {k}), ages, KeyAge(k, Newest(h[k])));
  }

  lemma {:induction false} DistinctSize(ages: seq<KeyAge>)
    requires Distinct(ages)
    ensures |KeysOf(ages)| == |ages|
  {
    if ages != [] {
      var n := |ages| - 1;
      assert ages == ages[..n] + [ages[n]];
      DistinctSize(ages[..n]);
      assert KeysOf(ages) == KeysOf(ages[..n]) + {ages[n].key};
    }
  }

  lemma CountAtMostOne(ages: seq<KeyAge>, a: KeyAge)
    requires Distinct(ages)
    ensures multiset(ages)[a] <= 1
  {
    if ages != [] {
      var n := |ages| - 1;
      assert ages == ages[..n] + [ages[n]];
      CountAtMostOne(ages[..n], a);
      if a == ages[n] {
        assert a !in ages[..n];
      }
    }
  }

  // Sorting keeps the list a list of every key once.
  lemma AgesPermuted(h: Hits, ages: seq<KeyAge>, sorted: seq<KeyAge>)
    requires AgesOf(h, ages) && multiset(sorted) == multiset(ages)
    ensures AgesOf(h, sorted)
  {
    forall a ensures a in sorted <==> a in ages {
      assert a in sorted <==> a in multiset(sorted);
      assert a in ages <==> a in multiset(ages);
    }
    forall i, j | 0 <= i < j < |sorted| ensures sorted[i].key != sorted[j].key {
      if sorted[i].key == sorted[j].key {
        assert sorted[i] in sorted && sorted[j] in sorted;
        CountOfTwo(sorted, i, j);
        CountAtMostOne(ages, sorted[i]);
      }
    }
  }

  lemma NoVictims(h: Hits, target: int)
    requires |h| <= Max(target, 0)
    ensures Victims(h, {}, target)
  {
  }

  // The first `drop` entries of the sorted list are legitimate victims.
  lemma PrefixIsVictims(h: Hits, ages: seq<KeyAge>, drop: nat, target: int)
    requires AgesOf(h, ages) && SortedByAge(ages) && |ages| == |h| && drop == |h| - Max(target, 0)
    ensures Victims(h, KeysOf(ages[..drop]), target)
  {
    DistinctSize(ages[..drop]);
    forall k, v | k in h && k !in KeysOf(ages[..drop]) && v in KeysOf(ages[..drop])
      ensures Newest(h[v]) <= Newest(h[k])
    {
      PrefixIsOlder(h, ages, drop, k, v);
    }
  }

  lemma PrefixIsOlder(h: Hits, ages: seq<KeyAge>, drop: nat, k: Key, v: Key)
    requires AgesOf(h, ages) && SortedByAge(ages) && drop <= |ages|
    requires k in h && k !in KeysOf(ages[..drop]) && v in KeysOf(ages[..drop])
    ensures v in h && Newest(h[v]) <= Newest(h[k])
  {
    assert k in KeysOf(ages);
    var i :| 0 <= i < |ages| && ages[i].key == k;
    var j :| 0 <= j < drop && ages[j].key == v;
    forall x | 0 <= x < drop ensures ages[x].key in KeysOf(ages[..drop]) {
      assert ages[..drop][x] == ages[x];
    }
    assert ages[i] in ages && ages[j] in ages;
  }

  // ---- the branches of one call, on values --------------------------------------------

  // The table after the cap path: swept, then evicted from; untouched when below the cap.
  ghost predicate MadeRoom(p: Policy, s1: State, key: Key, now: Time, evicted: set<Key>, room: State) {
    && Evicted(p, s1, key, now, evicted)
    && room.hits == CapSwept(p, s1, key, now).hits - evicted
    && room.lastSweep == CapSwept(p, s1, key, now).lastSweep
  }

  lemma BelowCapNeedsNoRoom(p: Policy, s1: State, key: Key, now: Time)
    requires !AtCap(p, s1.hits, key)
    ensures MadeRoom(p, s1, key, now, {}, s1)
  {
    assert s1.hits - {} == s1.hits;
  }

  lemma SweepMadeRoom(p: Policy, s1: State, key: Key, now: Time, swept: Hits)
    requires AtCap(p, s1.hits, key) && swept == Swept(s1.hits, now - p.win) && |swept| < p.maxKeys
    ensures MadeRoom(p, s1, key, now, {}, State(swept, now))
  {
    assert CapSwept(p, s1, key, now) == State(swept, now);
    assert swept - {} == swept;
  }

  lemma EvictionMadeRoom(p: Policy, s1: State, key: Key, now: Time, swept: Hits, evicted: set<Key>)
    requires AtCap(p, s1.hits, key) && swept == Swept(s1.hits, now - p.win) && |swept| >= p.maxKeys
    requires Victims(swept, evicted, p.LowWater())
    ensures MadeRoom(p, s1, key, now, evicted, State(swept - evicted, now))
  {
    hide Victims;
    assert CapSwept(p, s1, key, now) == State(swept, now);
  }

  lemma Denied(p: Policy, s1: State, key: Key, now: Time, kept: seq<Time>, s': State)
    requires kept == Live(Lookup(s1.hits, key), now - p.win) && |kept| >= p.limit
    requires s' == State(s1.hits[key := kept], s1.lastSweep)
    ensures Decides(p, s1, Call(key, now, false, {}), s')
  {
  }

  lemma Accepted(p: Policy, s1: State, key: Key, now: Time, kept: seq<Time>, evicted: set<Key>, room: State, s': State)
    requires kept == Live(Lookup(s1.hits, key), now - p.win) && |kept| < p.limit
    requires MadeRoom(p, s1, key, now, evicted, room)
    requires s' == State(room.hits[key := kept + [now]], room.lastSweep)
    ensures Decides(p, s1, Call(key, now, true, evicted), s')
  {
  }

  // ---- map facts -----------------------------------------------------------------------

  // A sweep that still has the keys in todo ahead of it.
  ghost function SweptButFor(h: Hits, todo: set<Key>, cutoff: Time): Hits {
    map k | k in h && (k in todo || !Stale(h[k], cutoff)) :: h[k]
  }

  lemma SweepNext(h: Hits, todo: set<Key>, k: Key, cutoff: Time)
    requires k in todo && k in h
    ensures SweptButFor(h, todo - {k}, cutoff) ==
            if Stale(h[k], cutoff) then SweptButFor(h, todo, cutoff) - {k} else SweptButFor(h, todo, cutoff)
  {
  }

  lemma SweepEnds(h: Hits, cutoff: Time)
    ensures SweptButFor(h, h.Keys, cutoff) == h && SweptButFor(h, {}, cutoff) == Swept(h, cutoff)
  {
  }

  lemma RemoveNext<V>(h: map<Key, V>, ages: seq<KeyAge>, i: nat)
    requires i < |ages|
    ensures h - KeysOf(ages[..i]) - {ages[i].key} == h - KeysOf(ages[..i + 1])
  {
    assert ages[..i + 1] == ages[..i] + [ages[i]];
  }

  lemma RemoveNone<V>(h: map<Key, V>)
    ensures h - {} == h && h - KeysOf([]) == h
  {
  }

  // The slice's current contents are ts.
  ghost predicate Holds(s: Slice, ts: seq<Time>)
    reads s.data
  {
    s.len <= s.data.Length && s.data[..s.len] == ts
  }

  // The backing array belongs to this key alone.
  ghost predicate Owns(owner: map<array<Time>, Key>, k: Key, s: Slice) {
    s.data in owner && owner[s.data] == k
  }

  // Compacts the stamps later than the cutoff to the front of the array they are read from.
  method Compact(data: array<Time>, len: nat, cutoff: Time) returns (n: nat)
    requires len <= data.Length
    modifies data
    ensures n <= len && data[..n] == Live(old(data[..len]), cutoff)
  {
    hide Live;
    n := 0;
    LiveOne(0, cutoff);
    ghost var ts := data[..len];
    for i := 0 to len
      invariant 0 <= n <= i
      invariant data[..n] == Live(ts[..i], cutoff)
      invariant forall j :: i <= j < len ==> data[j] == ts[j]
    {
      assert ts[..i + 1] == ts[..i] + [ts[i]];
      LiveAppend(ts[..i], ts[i], cutoff);
      if data[i] > cutoff {
        data[n] := data[i];
        n := n + 1;
      }
    }
    assert ts[..len] == ts;
  }

  predicate IsStale(s: Slice, cutoff: Time)
    requires s.len <= s.data.Length
    reads s.data
    ensures IsStale(s, cutoff) == Stale(s.data[..s.len], cutoff)
  {
    s.len == 0 || s.data[s.len - 1] <= cutoff
  }

  function NewestOf(s: Slice): (t: Time)
    requires s.len <= s.data.Length
    reads s.data
    ensures t == Newest(s.data[..s.len])
  {
    if s.len > 0 then s.data[s.len - 1] else ZERO_TIME
  }

  class RateLimiter {
    const policy: Policy
    var hits: map<Key, Slice>
    var lastSweep: Time

    ghost var stamps: Hits                  // what the map of slices stands for
    ghost var owner: map<array<Time>, Key>  // the key each backing array was made for

    ghost predicate Valid()
      reads this, owner.Keys
    {
      && hits.Keys == stamps.Keys
      && forall k :: k in hits ==> Owns(owner, k, hits[k]) && Holds(hits[k], stamps[k])
    }

    ghost function View(): State
      reads this
    {
      State(stamps, lastSweep)
    }

    constructor (limit: int, win: int, maxKeys: int)
      ensures Valid() && policy == Policy(limit, win, maxKeys)
      ensures View() == INITIAL && owner == map[]
    {
      policy := Policy(limit, win, maxKeys);
      hits := map[];
      lastSweep := ZERO_TIME;
      stamps := map[];
      owner := map[];
    }

    // Records an attempt for key at now and reports whether it is within the limit.
    method Allow(key: Key, now: Time) returns (ok: bool, ghost evicted: set<Key>)
      requires Valid()
      modifies this, owner.Keys
      ensures Valid() && fresh(owner.Keys - old(owner.Keys))
      ensures Step(policy, old(View()), Call(key, now, ok, evicted), View())
    {
      ghost var s := View();
      if now - lastSweep >= policy.win {
        Sweep(now);
      }
      assert View() == LazySwept(policy, s, now);
      ok, evicted := Decide(key, now);
    }

    method Decide(key: Key, now: Time) returns (ok: bool, ghost evicted: set<Key>)
      requires Valid()
      modifies this, owner.Keys
      ensures Valid() && fresh(owner.Keys - old(owner.Keys))
      ensures Decides(policy, old(View()), Call(key, now, ok, evicted), View())
    {
      hide Decides, MadeRoom, Live;
      ghost var s1 := View();
      var kept := Prune(key, now - policy.win);
      ghost var pruned := Live(Lookup(stamps, key), now - policy.win);
      if kept.len >= policy.limit {
        Put(key, kept, s1);
        ok, evicted := false, {};
        Denied(policy, s1, key, now, pruned, View());
      } else {
        ok := true;
        evicted := Admit(key, kept, pruned, now, s1);
      }
    }

    // Within the limit: make room, then record the attempt.
    method Admit(key: Key, kept: Slice, ghost pruned: seq<Time>, now: Time, ghost s1: State)
      returns (ghost evicted: set<Key>)
      requires PrunedBut(key, s1) && (key !in hits ==> Valid())
      requires Owns(owner, key, kept) && Holds(kept, pruned)
      requires pruned == Live(Lookup(s1.hits, key), now - policy.win) && |pruned| < policy.limit
      modifies this, kept.data
      ensures Valid() && fresh(owner.Keys - old(owner.Keys))
      ensures Decides(policy, s1, Call(key, now, true, evicted), View())
    {
      hide Decides, MadeRoom, Live;
      ghost var room;
      evicted, room := MakeRoom(key, now, s1);
      Record(key, kept, pruned, now, room);
      Accepted(policy, s1, key, now, pruned, evicted, room, View());
    }

    // hits[key] = append(kept, now)
    method Record(key: Key, kept: Slice, ghost pruned: seq<Time>, now: Time, ghost room: State)
      requires PrunedBut(key, room) && Owns(owner, key, kept) && Holds(kept, pruned)
      modifies this`hits, this`stamps, this`owner, kept.data
      ensures Valid() && fresh(owner.Keys - old(owner.Keys))
      ensures View() == State(room.hits[key := pruned + [now]], room.lastSweep)
    {
      var extended := Append(key, kept, now);
      Put(key, extended, room);
    }

    // hits[key] = s.  Until then the array under key may already hold the new stamps.
    method Put(key: Key, s: Slice, ghost before: State)
      requires PrunedBut(key, before)
      requires s.len <= s.data.Length && Owns(owner, key, s)
      modifies this`hits, this`stamps
      ensures Valid() && View() == State(before.hits[key := s.data[..s.len]], before.lastSweep)
    {
      hits := hits[key := s];
      stamps := stamps[key := s.data[..s.len]];
    }

    // Valid, except that key's own array may have been written to.
    ghost predicate PrunedBut(key: Key, before: State)
      reads this, owner.Keys
    {
      && View() == before
      && hits.Keys == stamps.Keys
      && (forall k :: k in hits ==> Owns(owner, k, hits[k]))
      && (forall k :: k in hits && k != key ==> Holds(hits[k], stamps[k]))
    }

    // The caller's stamps, pruned in its own backing array.  No other key's stamps change.
    method Prune(key: Key, cutoff: Time) returns (kept: Slice)
      requires Valid()
      modifies if key in hits then {hits[key].data} else {}, this`owner
      ensures PrunedBut(key, old(View())) && fresh(owner.Keys - old(owner.Keys))
      ensures key !in hits ==> Valid()
      ensures Owns(owner, key, kept) && Holds(kept, Live(Lookup(stamps, key), cutoff))
    {
      if key in hits {
        var n := Compact(hits[key].data, hits[key].len, cutoff);
        kept := Slice(hits[key].data, n);
      } else {
        var empty := new Time[0];
        owner := owner[empty := key];
        kept := Slice(empty, 0);
      }
    }

    // Drops every key whose newest stamp has left the window.
    method Sweep(now: Time)
      requires Valid()
      modifies this`hits, this`stamps, this`lastSweep
      ensures Valid()
      ensures View() == State(Swept(old(stamps), now - policy.win), now)
    {
      ghost var h := stamps;
      var cutoff := now - policy.win;
      var todo := hits.Keys;
      SweepEnds(h, cutoff);
      while todo != {}
        invariant Valid()
        invariant todo <= h.Keys && stamps == SweptButFor(h, todo, cutoff)
      {
        var k :| k in todo;
        assert k in stamps && stamps[k] == h[k];
        SweepNext(h, todo, k, cutoff);
        if IsStale(hits[k], cutoff) {
          Delete(k);
        }
        todo := todo - {k};
      }
      lastSweep := now;
    }

    method Delete(k: Key)
      requires Valid()
      modifies this`hits, this`stamps
      ensures Valid() && hits == old(hits) - {k} && stamps == old(stamps) - {k}
    {
      hits := hits - {k};
      stamps := stamps - {k};
    }

    // Removes the keys seen longest ago until target keys are left, in one sorted pass.
    // Which keys go among equals is up to the map's iteration order and the sort.
    method EvictBatch(target: int) returns (ghost victims: set<Key>)
      requires Valid()
      modifies this`hits, this`stamps
      ensures Valid()
      ensures Victims(old(stamps), victims, target)
      ensures stamps == old(stamps) - victims && hits == old(hits) - victims
    {
      hide SortedByAge, Distinct, Newest, Victims;
      victims := {};
      StampsSize();
      RemoveNone(hits);
      RemoveNone(stamps);
      var goal := if target < 0 then 0 else target;
      var drop := |hits| - goal;
      if drop <= 0 {
        NoVictims(stamps, target);
        return;
      }
      var ages := SortedAges();
      ghost var h := stamps;
      ghost var slices := hits;
      for i := 0 to drop
        invariant Valid()
        invariant stamps == h - KeysOf(ages[..i]) && hits == slices - KeysOf(ages[..i])
      {
        RemoveNext(h, ages, i);
        RemoveNext(slices, ages, i);
        Delete(ages[i].key);
      }
      victims := KeysOf(ages[..drop]);
      PrefixIsVictims(h, ages, drop, target);
    }

    method SortedAges() returns (ages: seq<KeyAge>)
      requires Valid()
      ensures AgesOf(stamps, ages) && SortedByAge(ages) && |ages| == |stamps|
    {
      ages := [];
      var todo := hits.Keys;
      while todo != {}
        invariant todo <= hits.Keys
        invariant AgesOf(stamps - todo, ages)
      {
        var k :| k in todo;
        var last := NewestOf(hits[k]);
        AgesNext(stamps, todo, ages, k);
        ages := ages + [KeyAge(k, last)];
        todo := todo - {k};
      }
      RemoveNone(stamps);
      ghost var unsorted := ages;
      ages := Sort(ages, (a: KeyAge, b: KeyAge) => a.last <= b.last);
      AgesPermuted(stamps, unsorted, ages);
      DistinctSize(ages);
      MapSize(stamps);
    }

    lemma PrunedState(key: Key, before: State)
      requires PrunedBut(key, before)
      ensures View() == before && (AtCap(policy, before.hits, key) <==> key !in hits && |hits| >= policy.maxKeys)
    {
      MapSize(hits);
      MapSize(stamps);
    }

    lemma ValidIsPruned(key: Key)
      requires Valid()
      ensures PrunedBut(key, View())
    {
    }

    // A brand-new key is about to be tracked: enforce the hard cap.
    method MakeRoom(key: Key, now: Time, ghost s1: State) returns (ghost evicted: set<Key>, ghost room: State)
      requires PrunedBut(key, s1) && (key !in hits ==> Valid())
      modifies this`hits, this`stamps, this`lastSweep
      ensures PrunedBut(key, room)
      ensures MadeRoom(policy, s1, key, now, evicted, room)
    {
      hide MadeRoom, Valid, PrunedBut, AtCap;
      PrunedState(key, s1);
      if key !in hits && |hits| >= policy.maxKeys {
        evicted := SweepThenEvict(key, now);
        ValidIsPruned(key);
      } else {
        evicted := {};
        BelowCapNeedsNoRoom(policy, s1, key, now);
      }
      room := View();
    }

    // Sweep first, then, if still full, evict down to the low-water mark.
    method SweepThenEvict(ghost key: Key, now: Time) returns (ghost evicted: set<Key>)
      requires Valid() && AtCap(policy, stamps, key)
      modifies this`hits, this`stamps, this`lastSweep
      ensures Valid()
      ensures MadeRoom(policy, old(View()), key, now, evicted, View())
    {
      hide Victims, Swept, MadeRoom, AtCap;
      ghost var s1 := View();
      ghost var swept := Swept(stamps, now - policy.win);
      Sweep(now);
      evicted := {};
      StampsSize();
      if |hits| >= policy.maxKeys {
        evicted := EvictBatch(policy.LowWater());
        EvictionMadeRoom(policy, s1, key, now, swept, evicted);
      } else {
        SweepMadeRoom(policy, s1, key, now, swept);
      }
    }

    lemma StampsSize()
      requires Valid()
      ensures |stamps| == |hits|
    {
      MapSize(stamps);
      MapSize(hits);
    }

    // append: in place while the backing array has room, else into a fresh, larger array
    // (how much larger is up to the Go runtime).
    method Append(ghost key: Key, s: Slice, t: Time) returns (r: Slice)
      requires s.len <= s.data.Length && Owns(owner, key, s)
      modifies s.data, this`owner
      ensures owner == old(owner)[r.data := key]
      ensures Holds(r, old(s.data[..s.len]) + [t])
      ensures r.data == s.data || fresh(r.data)
    {
      var data := s.data;
      if s.len == data.Length {
        var capacity :| capacity > s.len;
        data := new Time[capacity];
        for i := 0 to s.len
          modifies data
          invariant data[..i] == s.data[..i]
        {
          data[i] := s.data[i];
        }
        owner := owner[data := key];
      }
      assert data[..s.len] == old(s.data[..s.len]);
      data[s.len] := t;
      r := Slice(data, s.len + 1);
    }
  }
}
