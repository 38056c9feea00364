/**
  The engine cache (app/src/core/memory/cache.hpp, scope_guard.hpp) and its use by the games of
  a tournament (app/src/matchmaking/tournament/base/tournament.cpp).
 */
module CachePool {
  import opened Collections

  // ---------- The pool on values ----------

  /** One node of the list; `serial` is its identity, the iterator that callers hold. */
  datatype Slot<ID> = Slot(serial: nat, id: ID, restart: bool, available: bool)

  datatype Pool<ID> = Pool(slots: seq<Slot<ID>>, created: nat)

  function FirstFree<ID(==)>(slots: seq<Slot<ID>>, id: ID): (i: nat)
    ensures i <= |slots|
    ensures i < |slots| ==> slots[i].available && slots[i].id == id
    ensures forall j :: 0 <= j < i ==> !(slots[j].available && slots[j].id == id)
  {
    if slots == [] || (slots[0].available && slots[0].id == id) then 0 else 1 + FirstFree(slots[1..], id)
  }

  /** The first free entry of that id is taken; only without one is an entry created. */
  function Get<ID(==)>(p: Pool<ID>, id: ID, restart: bool): Pool<ID> {
    var i := FirstFree(p.slots, id);
    if i < |p.slots| then p.(slots := p.slots[i := p.slots[i].(available := false)])
    else Pool(p.slots + [Slot(p.created, id, restart, false)], p.created + 1)
  }

  /** The entry that `Get` hands out. */
  function Handed<ID(==)>(p: Pool<ID>, id: ID): nat {
    var i := FirstFree(p.slots, id);
    if i < |p.slots| then p.slots[i].serial else p.created
  }

  function Freed<ID>(slots: seq<Slot<ID>>, serial: nat): (r: seq<Slot<ID>>)
    ensures |r| == |slots|
  {
    seq(|slots|, i requires 0 <= i < |slots| =>
      if slots[i].serial == serial then slots[i].(available := true) else slots[i])
  }

  function Without<ID>(slots: seq<Slot<ID>>, serial: nat): seq<Slot<ID>> {
    if slots == [] then []
    else if slots[0].serial == serial then Without(slots[1..], serial)
    else [slots[0]] + Without(slots[1..], serial)
  }

  predicate DistinctSerials<ID>(slots: seq<Slot<ID>>) {
    forall i, j :: 0 <= i < j < |slots| ==> slots[i].serial != slots[j].serial
  }

  // ---------- The pool in memory ----------

  class CachedEntry<ID> {
    const serial: nat
    const id: ID
    const restart: bool
    var available: bool

    constructor (serial: nat, id: ID, restart: bool)
      ensures this.serial == serial && this.id == id && this.restart == restart && !available
    {
      this.serial, this.id, this.restart, available := serial, id, restart, false;
    }

    method Release()
      modifies this
      ensures available
    {
      available := true;
    }

    function Snapshot(): Slot<ID>
      reads this
    {
      Slot(serial, id, restart, available)
    }
  }

  class CachePool<ID(==)> {
    var cache: seq<CachedEntry<ID>>
    var created: nat

    ghost predicate Valid()
      reads this, cache
    {
      && DistinctSerials(Contents().slots)
      && forall e :: e in cache ==> e.serial < created
    }

    ghost function Contents(): (p: Pool<ID>)
      reads this, cache
      ensures |p.slots| == |cache| && p.created == created
      ensures forall i :: 0 <= i < |cache| ==> p.slots[i] == cache[i].Snapshot()
    {
      Pool(seq(|cache|, i requires 0 <= i < |cache| reads this, cache => cache[i].Snapshot()), created)
    }

    constructor ()
      ensures Valid() && cache == [] && created == 0
    {
      cache, created := [], 0;
    }

    /** Where the search of `GetEntry` ends. */
    lemma Found(i: nat, identifier: ID)
      requires Valid() && i <= |cache|
      requires forall j :: 0 <= j < i ==> !(cache[j].available && cache[j].id == identifier)
      requires i < |cache| ==> cache[i].available && cache[i].id == identifier
      ensures FirstFree(Contents().slots, identifier) == i
      ensures forall j :: 0 <= j < |cache| && j != i && i < |cache| ==> cache[j] != cache[i]
    {
      var slots := Contents().slots;
      if i < |cache| {
        forall j | 0 <= j < |cache| && j != i ensures cache[j] != cache[i] {
          assert slots[j].serial != slots[i].serial;
        }
      }
    }

    method GetEntry(identifier: ID, restart: bool) returns (entry: CachedEntry<ID>)
      requires Valid()
      modifies this, cache
      ensures Valid() && Contents() == Get(old(Contents()), identifier, restart)
      ensures entry in cache && entry.serial == Handed(old(Contents()), identifier) && !entry.available
      ensures entry in old(cache) || fresh(entry)
    {
      ghost var before := Contents();
      var i := 0;
      while i < |cache|
        invariant 0 <= i <= |cache|
        invariant forall j :: 0 <= j < i ==> !(cache[j].available && cache[j].id == identifier)
        invariant cache == old(cache) && Contents() == before
      {
        if cache[i].available && cache[i].id == identifier {
          entry := cache[i];
          Found(i, identifier);
          TakenDistinct(before.slots, i);
          hide FirstFree, DistinctSerials;
          entry.available := false;
          assert Contents().slots == before.slots[i := before.slots[i].(available := false)];
          return;
        }
        i := i + 1;
      }
      Found(i, identifier);
      AddedDistinct(before.slots, Slot(created, identifier, restart, false));
      hide FirstFree, DistinctSerials;
      entry := new CachedEntry(created, identifier, restart);
      cache := cache + [entry];
      created := created + 1;
      assert Contents().slots == before.slots + [Slot(before.created, identifier, restart, false)];
    }

    /** Leaving the guarded scope frees exactly this entry. */
    method LeaveScope(entry: CachedEntry<ID>)
      requires Valid() && entry in cache
      modifies entry
      ensures Valid() && Contents() == old(Contents()).(slots := Freed(old(Contents()).slots, entry.serial))
    {
      ghost var before := Contents();
      entry.Release();
      forall j | 0 <= j < |cache| ensures Contents().slots[j] == Freed(before.slots, entry.serial)[j] {
        var k :| 0 <= k < |cache| && cache[k] == entry;
        assert before.slots[k].serial == entry.serial;
        if j != k { assert before.slots[j].serial != before.slots[k].serial; }
      }
      assert Contents().slots == Freed(before.slots, entry.serial);
    }

    /** The entry's own place in the list is known; nothing is searched. */
    method DeleteFromCache(entry: CachedEntry<ID>)
      requires Valid() && entry in cache && !entry.available
      modifies this
      ensures Valid() && Contents() == old(Contents()).(slots := Without(old(Contents()).slots, entry.serial))
    {
      hide Without, DistinctSerials;
      var i :| 0 <= i < |cache| && cache[i] == entry;
      ghost var before := Contents();
      assert before.slots[i].serial == entry.serial;
      RemoveOne(before.slots, i);
      RemovedDistinct(before.slots, i);
      cache := cache[..i] + cache[i + 1..];
      assert Contents().slots == before.slots[..i] + before.slots[i + 1..];
    }
  }

  lemma AddedDistinct<ID>(slots: seq<Slot<ID>>, t: Slot<ID>)
    requires DistinctSerials(slots) && forall i :: 0 <= i < |slots| ==> slots[i].serial < t.serial
    ensures DistinctSerials(slots + [t])
  {}

  lemma TakenDistinct<ID>(slots: seq<Slot<ID>>, i: nat)
    requires DistinctSerials(slots) && i < |slots|
    ensures DistinctSerials(slots[i := slots[i].(available := false)])
  {}

  lemma {:induction false} RemoveOne<ID>(slots: seq<Slot<ID>>, i: nat)
    requires i < |slots| && DistinctSerials(slots)
    ensures Without(slots, slots[i].serial) == slots[..i] + slots[i + 1..]
    decreases |slots|
  {
    var tail := slots[1..];
    if i == 0 {
      WithoutAbsent(tail, slots[0].serial);
      assert slots[..0] + tail == tail;
    } else {
      assert slots[0].serial != slots[i].serial;
      assert Without(slots, slots[i].serial) == [slots[0]] + Without(tail, slots[i].serial);
      TailDistinct(slots);
      assert tail[i - 1] == slots[i];
      hide Without, DistinctSerials;
      RemoveOne(tail, i - 1);
      assert tail[..i - 1] == slots[1..i] && tail[i..] == slots[i + 1..];
      assert [slots[0]] + slots[1..i] == slots[..i];
      assert [slots[0]] + (slots[1..i] + slots[i + 1..]) == slots[..i] + slots[i + 1..];
    }
  }

  lemma TailDistinct<ID>(slots: seq<Slot<ID>>)
    requires slots != [] && DistinctSerials(slots)
    ensures DistinctSerials(slots[1..])
  {}

  lemma RemovedDistinct<ID>(slots: seq<Slot<ID>>, i: nat)
    requires i < |slots| && DistinctSerials(slots)
    ensures DistinctSerials(slots[..i] + slots[i + 1..])
  {}

  lemma {:induction false} WithoutAbsent<ID>(slots: seq<Slot<ID>>, serial: nat)
    requires forall i :: 0 <= i < |slots| ==> slots[i].serial != serial
    ensures Without(slots, serial) == slots
  {
    if slots != [] { WithoutAbsent(slots[1..], serial); }
  }

  // ---------- Games sharing the pool ----------

  /**
    The pool and who uses it: `holder` maps an entry to the running game holding it; an entry is
    `abandoned` when a game returned early with a restarting engine, which no guard releases.
   */
  datatype System<ID> = System(pool: Pool<ID>, holder: map<nat, nat>, abandoned: set<nat>)

  /** A game takes an entry, ends normally with it, or returns early. */
  datatype Event<ID> = Take(game: nat, id: ID, restart: bool) | End(serial: nat) | Bail(serial: nat)

  function IndexOf<ID>(slots: seq<Slot<ID>>, serial: nat): (i: nat)
    ensures i <= |slots|
    ensures i < |slots| ==> slots[i].serial == serial
    ensures i == |slots| ==> forall j :: 0 <= j < |slots| ==> slots[j].serial != serial
  {
    if slots == [] || slots[0].serial == serial then 0 else 1 + IndexOf(slots[1..], serial)
  }

  predicate Enabled<ID>(s: System<ID>, e: Event<ID>) {
    e.Take? || e.serial in s.holder
  }

  predicate Restarts<ID>(p: Pool<ID>, serial: nat) {
    var i := IndexOf(p.slots, serial);
    i < |p.slots| && p.slots[i].restart
  }

  function Apply<ID(==)>(s: System<ID>, e: Event<ID>): System<ID>
    requires Enabled(s, e)
  {
    match e
    case Take(game, id, restart) =>
      System(Get(s.pool, id, restart), s.holder[Handed(s.pool, id) := game], s.abandoned)
    case End(h) =>
      var slots := if Restarts(s.pool, h) then Without(s.pool.slots, h) else Freed(s.pool.slots, h);
      System(s.pool.(slots := slots), s.holder - {h}, s.abandoned)
    case Bail(h) =>
      if Restarts(s.pool, h) then System(s.pool, s.holder - {h}, s.abandoned + {h})
      else System(s.pool.(slots := Freed(s.pool.slots, h)), s.holder - {h}, s.abandoned)
  }

  ghost predicate SlotInv<ID>(s: System<ID>, t: Slot<ID>) {
    && t.serial < s.pool.created
    && (t.available <==> t.serial !in s.holder && t.serial !in s.abandoned)
    && (t.restart ==> !t.available)
  }

  ghost predicate Listed<ID>(p: Pool<ID>, serial: nat) {
    IndexOf(p.slots, serial) < |p.slots|
  }

  /** The unavailable entries are exactly the held and the abandoned ones. */
  ghost predicate Inv<ID>(s: System<ID>) {
    && DistinctSerials(s.pool.slots)
    && (forall i :: 0 <= i < |s.pool.slots| ==> SlotInv(s, s.pool.slots[i]))
    && (forall h :: h in s.holder ==> Listed(s.pool, h) && h !in s.abandoned)
    && (forall h :: h in s.abandoned ==> Listed(s.pool, h) && Restarts(s.pool, h))
  }

  function Start<ID>(): System<ID> {
    System(Pool([], 0), map[], {})
  }

  predicate IsRun<ID(==)>(events: seq<Event<ID>>)
    decreases |events|, 0
  {
    events == [] ||
    (IsRun(events[..|events| - 1]) && Enabled(After(events[..|events| - 1]), events[|events| - 1]))
  }

  function After<ID(==)>(events: seq<Event<ID>>): System<ID>
    requires IsRun(events)
    decreases |events|, 1
  {
    if events == [] then Start() else Apply(After(events[..|events| - 1]), events[|events| - 1])
  }

  lemma {:induction false} ListedAt<ID>(slots: seq<Slot<ID>>, i: nat)
    requires i < |slots| && DistinctSerials(slots)
    ensures IndexOf(slots, slots[i].serial) == i
  {
    if i > 0 {
      assert slots[0].serial != slots[i].serial;
      ListedAt(slots[1..], i - 1);
    }
  }

  // ---------- Every step keeps the invariant ----------

  lemma NextSerialUnused<ID>(s: System<ID>)
    requires Inv(s)
    ensures !Listed(s.pool, s.pool.created)
  {
    var i := IndexOf(s.pool.slots, s.pool.created);
    assert i < |s.pool.slots| ==> SlotInv(s, s.pool.slots[i]);
  }

  lemma TakenIsFree<ID>(s: System<ID>, id: ID)
    requires Inv(s)
    ensures Handed(s.pool, id) !in s.holder && Handed(s.pool, id) !in s.abandoned
  {
    hide IndexOf;
    var i := FirstFree(s.pool.slots, id);
    if i < |s.pool.slots| { assert SlotInv(s, s.pool.slots[i]); } else { NextSerialUnused(s); }
  }

  lemma TakeKeepsSlots<ID>(s: System<ID>, game: nat, id: ID, restart: bool)
    requires Inv(s)
    ensures var t := Apply(s, Take(game, id, restart));
            && DistinctSerials(t.pool.slots)
            && forall k :: 0 <= k < |t.pool.slots| ==> SlotInv(t, t.pool.slots[k])
  {
    hide IndexOf, Listed, Restarts;
    TakenIsFree(s, id);
    var i := FirstFree(s.pool.slots, id);
    var t := Apply(s, Take(game, id, restart));
    var slots, after := s.pool.slots, t.pool.slots;
    forall k | 0 <= k < |after| ensures SlotInv(t, after[k]) {
      if k < |slots| {
        assert SlotInv(s, slots[k]);
        if k != i && i < |slots| { assert slots[k].serial != slots[i].serial; }
      }
    }
    forall j, k | 0 <= j < k < |after| ensures after[j].serial != after[k].serial {
      if k < |slots| { assert slots[j].serial != slots[k].serial; } else { assert SlotInv(s, slots[j]); }
    }
  }

  lemma TakeKeepsInv<ID>(s: System<ID>, game: nat, id: ID, restart: bool)
    requires Inv(s)
    ensures Inv(Apply(s, Take(game, id, restart)))
  {
    hide IndexOf, SlotInv;
    var i, h := FirstFree(s.pool.slots, id), Handed(s.pool, id);
    var t := Apply(s, Take(game, id, restart));
    TakenIsFree(s, id);
    TakeKeepsSlots(s, game, id, restart);
    SerialsKept(s, t);
    var k := if i < |s.pool.slots| then i else |s.pool.slots|;
    assert t.pool.slots[k].serial == h;
    ListedAt(t.pool.slots, k);
  }

  /** Entries that stay in the list keep their restart flag. */
  lemma SerialsKept<ID>(s: System<ID>, t: System<ID>)
    requires DistinctSerials(s.pool.slots) && DistinctSerials(t.pool.slots)
    requires |s.pool.slots| <= |t.pool.slots|
    requires forall k :: 0 <= k < |s.pool.slots| ==>
               t.pool.slots[k].serial == s.pool.slots[k].serial && t.pool.slots[k].restart == s.pool.slots[k].restart
    ensures forall h :: Listed(s.pool, h) ==> Listed(t.pool, h) && (Restarts(t.pool, h) <==> Restarts(s.pool, h))
  {
    hide IndexOf;
    forall h | Listed(s.pool, h) ensures Listed(t.pool, h) && (Restarts(t.pool, h) <==> Restarts(s.pool, h)) {
      var k := IndexOf(s.pool.slots, h);
      ListedAt(t.pool.slots, k);
    }
  }

  lemma ReleaseKeepsInv<ID>(s: System<ID>, h: nat)
    requires Inv(s) && h in s.holder && !Restarts(s.pool, h)
    ensures Inv(s.(pool := s.pool.(slots := Freed(s.pool.slots, h)), holder := s.holder - {h}))
  {
    hide IndexOf;
    var t := s.(pool := s.pool.(slots := Freed(s.pool.slots, h)), holder := s.holder - {h});
    assert Listed(s.pool, h);
    var slots, after := s.pool.slots, t.pool.slots;
    forall k | 0 <= k < |after| ensures SlotInv(t, after[k]) {
      assert SlotInv(s, slots[k]);
      if slots[k].serial == h { ListedAt(slots, k); }
    }
    assert DistinctSerials(after) by {
      forall j, k | 0 <= j < k < |after| ensures after[j].serial != after[k].serial {
        assert slots[j].serial != slots[k].serial;
      }
    }
    SerialsKept(s, t);
  }

  lemma AbandonKeepsInv<ID>(s: System<ID>, h: nat)
    requires Inv(s) && h in s.holder && Restarts(s.pool, h)
    ensures Inv(s.(holder := s.holder - {h}, abandoned := s.abandoned + {h}))
  {
    hide IndexOf;
    var t := s.(holder := s.holder - {h}, abandoned := s.abandoned + {h});
    forall k | 0 <= k < |t.pool.slots| ensures SlotInv(t, t.pool.slots[k]) {
      assert SlotInv(s, s.pool.slots[k]);
    }
  }

  lemma DeleteKeepsListed<ID>(p: Pool<ID>, i: nat, g: nat)
    requires i < |p.slots| && DistinctSerials(p.slots)
    requires DistinctSerials(p.slots[..i] + p.slots[i + 1..])
    requires Listed(p, g) && g != p.slots[i].serial
    ensures var q := p.(slots := p.slots[..i] + p.slots[i + 1..]);
            Listed(q, g) && (Restarts(q, g) <==> Restarts(p, g))
  {
    hide IndexOf;
    var after := p.slots[..i] + p.slots[i + 1..];
    var j := IndexOf(p.slots, g);
    var k := if j < i then j else j - 1;
    assert after[k] == p.slots[j];
    ListedAt(after, k);
  }

  lemma DeleteKeepsInv<ID>(s: System<ID>, h: nat)
    requires Inv(s) && h in s.holder && Restarts(s.pool, h)
    ensures Inv(s.(pool := s.pool.(slots := Without(s.pool.slots, h)), holder := s.holder - {h}))
  {
    hide IndexOf, Without;
    var slots := s.pool.slots;
    var i := IndexOf(slots, h);
    assert Listed(s.pool, h);
    RemoveOne(slots, i);
    RemovedDistinct(slots, i);
    var after := slots[..i] + slots[i + 1..];
    var t := s.(pool := s.pool.(slots := after), holder := s.holder - {h});
    forall k | 0 <= k < |after| ensures SlotInv(t, after[k]) {
      var j := if k < i then k else k + 1;
      assert after[k] == slots[j] && SlotInv(s, slots[j]);
      assert slots[j].serial != slots[i].serial;
    }
    hide SlotInv, Listed, Restarts;
    forall g | Listed(s.pool, g) && g != h
      ensures Listed(t.pool, g) && (Restarts(t.pool, g) <==> Restarts(s.pool, g))
    {
      DeleteKeepsListed(s.pool, i, g);
    }
  }

  lemma StepKeepsInv<ID>(s: System<ID>, e: Event<ID>)
    requires Inv(s) && Enabled(s, e)
    ensures Inv(Apply(s, e))
  {
    hide Inv, Restarts, Freed, Without, Get, Handed;
    match e
    case Take(game, id, restart) => TakeKeepsInv(s, game, id, restart);
    case End(h) => if Restarts(s.pool, h) { DeleteKeepsInv(s, h); } else { ReleaseKeepsInv(s, h); }
    case Bail(h) => if Restarts(s.pool, h) { AbandonKeepsInv(s, h); } else { ReleaseKeepsInv(s, h); }
  }

  /** In every reachable state the unavailable entries are exactly the held or abandoned ones. */
  lemma {:induction false} RunKeepsInv<ID>(events: seq<Event<ID>>)
    requires IsRun(events)
    ensures Inv(After(events))
  {
    if events != [] {
      RunKeepsInv(events[..|events| - 1]);
      StepKeepsInv(After(events[..|events| - 1]), events[|events| - 1]);
    }
  }

  /** Over any interleaving, the entry a game takes is held by nobody and abandoned by nobody. */
  lemma TakenFromNobody<ID>(events: seq<Event<ID>>, id: ID)
    requires IsRun(events)
    ensures var s := After(events); Handed(s.pool, id) !in s.holder && Handed(s.pool, id) !in s.abandoned
  {
    RunKeepsInv(events);
    TakenIsFree(After(events), id);
  }

  // ---------- How many entries there are ----------

  function Count<ID(==)>(slots: seq<Slot<ID>>, id: ID): nat {
    if slots == [] then 0 else Count(slots[..|slots| - 1], id) + (if slots[|slots| - 1].id == id then 1 else 0)
  }

  /** The entries of that id in the hands of some game, or abandoned by one. */
  ghost function InUse<ID>(s: System<ID>, id: ID): set<nat> {
    set h | h in s.holder.Keys + s.abandoned && HasId(s.pool, h, id)
  }

  ghost predicate HasId<ID>(p: Pool<ID>, h: nat, id: ID) {
    var i := IndexOf(p.slots, h);
    i < |p.slots| && p.slots[i].id == id
  }

  ghost function Peak<ID>(events: seq<Event<ID>>, id: ID): (n: nat)
    requires IsRun(events)
    decreases |events|
  {
    var now := |InUse(After(events), id)|;
    if events == [] then now
    else
      var before := Peak(events[..|events| - 1], id);
      if before < now then now else before
  }

  ghost function Serials<ID>(slots: seq<Slot<ID>>, id: ID): set<nat> {
    set t | t in slots && t.id == id :: t.serial
  }

  lemma {:induction false} SerialsCounted<ID>(slots: seq<Slot<ID>>, id: ID)
    requires DistinctSerials(slots)
    ensures |Serials(slots, id)| == Count(slots, id)
  {
    if slots != [] {
      var init, last := slots[..|slots| - 1], slots[|slots| - 1];
      SerialsCounted(init, id);
      assert forall t :: t in slots <==> t in init || t == last;
      assert Serials(slots, id) == Serials(init, id) + (if last.id == id then {last.serial} else {});
      assert last.serial !in Serials(init, id);
    }
  }

  /** As many entries as uses, at least, and exactly when none of that id is free. */
  lemma CountAgainstUse<ID>(s: System<ID>, id: ID)
    requires Inv(s)
    ensures |InUse(s, id)| <= Count(s.pool.slots, id)
    ensures (forall t :: t in s.pool.slots && t.id == id ==> !t.available)
            ==> |InUse(s, id)| == Count(s.pool.slots, id)
  {
    hide IndexOf, Count;
    var slots := s.pool.slots;
    SerialsCounted(slots, id);
    forall h | h in InUse(s, id) ensures h in Serials(slots, id) {
      assert slots[IndexOf(slots, h)] in slots;
    }
    SubsetSize(InUse(s, id), Serials(slots, id));
    if forall t :: t in slots && t.id == id ==> !t.available {
      forall h | h in Serials(slots, id) ensures h in InUse(s, id) {
        var k :| 0 <= k < |slots| && slots[k].id == id && slots[k].serial == h;
        assert SlotInv(s, slots[k]);
        ListedAt(slots, k);
      }
      assert Serials(slots, id) == InUse(s, id);
    }
  }

  lemma {:induction false} CountSameIds<ID>(a: seq<Slot<ID>>, b: seq<Slot<ID>>, id: ID)
    requires |a| == |b| && forall k :: 0 <= k < |a| ==> a[k].id == b[k].id
    ensures Count(a, id) == Count(b, id)
    decreases |a|
  {
    if a != [] { CountSameIds(a[..|a| - 1], b[..|b| - 1], id); }
  }

  lemma {:induction false} CountRemoved<ID>(slots: seq<Slot<ID>>, i: nat, id: ID)
    requires i < |slots|
    ensures Count(slots, id) == Count(slots[..i] + slots[i + 1..], id) + (if slots[i].id == id then 1 else 0)
    decreases |slots|
  {
    hide Count;
    var n := |slots| - 1;
    var init, t := slots[..n], slots[n];
    assert slots == init + [t];
    CountAppended(init, t, id);
    if i == n {
      assert slots[..i] + slots[i + 1..] == init;
    } else {
      CountRemoved(init, i, id);
      var shorter := init[..i] + init[i + 1..];
      assert init[..i] == slots[..i] && init[i + 1..] + [t] == slots[i + 1..];
      assert shorter + [t] == init[..i] + (init[i + 1..] + [t]);
      CountAppended(shorter, t, id);
    }
  }

  /** One step: the entries of an id grow only when all of them are in use, and shrink only by a restart. */
  lemma CountStep<ID>(s: System<ID>, e: Event<ID>, id: ID)
    requires Inv(s) && Enabled(s, e)
    ensures var t := Apply(s, e);
            && (Count(t.pool.slots, id) <= Count(s.pool.slots, id) || Count(t.pool.slots, id) == |InUse(t, id)|)
            && ((forall k :: 0 <= k < |s.pool.slots| && s.pool.slots[k].id == id ==> !s.pool.slots[k].restart)
                ==> Count(t.pool.slots, id) >= Count(s.pool.slots, id))
  {
    hide Inv, Count, IndexOf, Without, InUse;
    var slots, t := s.pool.slots, Apply(s, e);
    StepKeepsInv(s, e);
    if e.Take? {
      var i := FirstFree(slots, e.id);
      if i < |slots| {
        CountSameIds(slots, t.pool.slots, id);
      } else {
        CountAppended(slots, t.pool.slots[|slots|], id);
        CountAgainstUse(t, id);
        if e.id == id {
          forall x | x in t.pool.slots && x.id == id ensures !x.available {
            var k :| 0 <= k < |t.pool.slots| && t.pool.slots[k] == x;
            assert k < |slots| ==> slots[k] == x;
          }
        }
      }
    } else if e.End? && Restarts(s.pool, e.serial) {
      var i := IndexOf(slots, e.serial);
      assert DistinctSerials(slots) by { InvDistinct(s); }
      RemoveOne(slots, i);
      CountRemoved(slots, i, id);
    } else {
      CountSameIds(slots, t.pool.slots, id);
    }
  }

  lemma InvDistinct<ID>(s: System<ID>)
    requires Inv(s)
    ensures DistinctSerials(s.pool.slots)
  {}

  lemma CountAppended<ID>(slots: seq<Slot<ID>>, t: Slot<ID>, id: ID)
    ensures Count(slots + [t], id) == Count(slots, id) + (if t.id == id then 1 else 0)
  {
    assert (slots + [t])[..|slots|] == slots;
  }

  /** The pool never holds more entries of an id than were at some moment in use together. */
  lemma {:induction false} EntriesWithinPeak<ID>(events: seq<Event<ID>>, id: ID)
    requires IsRun(events)
    ensures Count(After(events).pool.slots, id) <= Peak(events, id)
  {
    hide Apply, InUse, Count, Enabled;
    if events == [] {
      NothingAtStart(id);
    } else {
      var init := events[..|events| - 1];
      EntriesWithinPeak(init, id);
      RunKeepsInv(init);
      CountStep(After(init), events[|events| - 1], id);
    }
  }

  lemma NothingAtStart<ID>(id: ID)
    ensures Count(Start<ID>().pool.slots, id) == 0 == |InUse(Start<ID>(), id)|
  {
    assert InUse(Start<ID>(), id) == {};
  }

  ghost predicate NeverRestarts<ID>(events: seq<Event<ID>>, id: ID) {
    forall k :: 0 <= k < |events| && events[k].Take? && events[k].id == id ==> !events[k].restart
  }

  lemma {:induction false} KeptEntriesNeverRestart<ID>(events: seq<Event<ID>>, id: ID)
    requires IsRun(events) && NeverRestarts(events, id)
    ensures forall t :: t in After(events).pool.slots && t.id == id ==> !t.restart
  {
    if events != [] {
      var init, e := events[..|events| - 1], events[|events| - 1];
      KeptEntriesNeverRestart(init, id);
      RestartFlagStep(After(init), e, id);
    }
  }

  lemma RestartFlagStep<ID>(s: System<ID>, e: Event<ID>, id: ID)
    requires Enabled(s, e)
    requires forall t :: t in s.pool.slots && t.id == id ==> !t.restart
    requires e.Take? && e.id == id ==> !e.restart
    ensures forall t :: t in Apply(s, e).pool.slots && t.id == id ==> !t.restart
  {
    var after := Apply(s, e).pool.slots;
    forall t | t in after && t.id == id ensures !t.restart {
      if e.End? && Restarts(s.pool, e.serial) {
        WithoutIn(s.pool.slots, e.serial, t);
      } else {
        var k :| 0 <= k < |after| && after[k] == t;
        if k < |s.pool.slots| { assert s.pool.slots[k] in s.pool.slots; }
      }
    }
  }

  lemma {:induction false} WithoutIn<ID>(slots: seq<Slot<ID>>, serial: nat, t: Slot<ID>)
    requires t in Without(slots, serial)
    ensures t in slots
  {
    if slots != [] && t != slots[0] { WithoutIn(slots[1..], serial, t); }
  }

  /** For an engine that is never restarted the pool holds exactly the peak, so reuse is perfect. */
  lemma {:induction false} EntriesReachPeak<ID>(events: seq<Event<ID>>, id: ID)
    requires IsRun(events) && NeverRestarts(events, id)
    ensures Count(After(events).pool.slots, id) == Peak(events, id)
  {
    hide Apply, InUse, Count, Enabled, Inv;
    EntriesWithinPeak(events, id);
    if events == [] {
      NothingAtStart(id);
    } else {
      var init := events[..|events| - 1];
      EntriesReachPeak(init, id);
      KeptEntriesNeverRestart(init, id);
      RunKeepsInv(init);
      RunKeepsInv(events);
      CountStep(After(init), events[|events| - 1], id);
      CountAgainstUse(After(events), id);
    }
  }
}
