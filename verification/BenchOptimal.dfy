/** The frequency-optimal cache simulation: on a full cache the resident key with the least total count goes. */
module CacheBench {
  import opened OptimalHeaps

  //
  // The policy, whatever structure picks the victim
  //

  datatype Event = Hit | Load | Replace(victim: string)

  function After(residents: set<string>, key: string, e: Event): set<string> {
    match e
    case Hit => residents
    case Load => residents + {key}
    case Replace(victim) => residents - {victim} + {key}
  }

  /** The keys resident after `accesses`, given what happened at each access. */
  function Residents(accesses: seq<string>, events: seq<Event>): set<string>
    requires |accesses| == |events|
  {
    if accesses == [] then {} else
      var n := |accesses| - 1;
      var before := Residents(accesses[..n], events[..n]);
      After(before, accesses[n], events[n])
  }

  /** What may happen when `key` is accessed: any least counted resident may be the victim. */
  ghost predicate Allowed(capacity: nat, count: multiset<string>, residents: set<string>, key: string, e: Event) {
    match e
    case Hit => key in residents
    case Load => key !in residents && |residents| < capacity
    case Replace(victim) =>
      && key !in residents && |residents| >= capacity
      && victim in residents && forall r :: r in residents ==> count[victim] <= count[r]
  }

  ghost predicate Simulates(capacity: nat, count: multiset<string>, accesses: seq<string>, events: seq<Event>)
    requires |accesses| == |events|
  {
    accesses == [] ||
    (var n := |accesses| - 1;
     && Simulates(capacity, count, accesses[..n], events[..n])
     && Allowed(capacity, count, Residents(accesses[..n], events[..n]), accesses[n], events[n]))
  }

  function Count(events: seq<Event>, f: Event -> bool): nat {
    if events == [] then 0 else Count(events[..|events| - 1], f) + if f(events[|events| - 1]) then 1 else 0
  }

  predicate IsHit(e: Event) { e.Hit? }
  predicate IsMiss(e: Event) { !e.Hit? }
  predicate IsEviction(e: Event) { e.Replace? }

  function Evicts(key: string): Event -> bool {
    (e: Event) => e == Replace(key)
  }

  function MissesOf(key: string, accesses: seq<string>, events: seq<Event>): nat
    requires |accesses| == |events|
  {
    if accesses == [] then 0 else
      var n := |accesses| - 1;
      MissesOf(key, accesses[..n], events[..n]) + if accesses[n] == key && IsMiss(events[n]) then 1 else 0
  }

  function Keys(accesses: seq<string>): set<string> {
    set k | k in accesses
  }

  lemma KeysSnoc(accesses: seq<string>)
    requires accesses != []
    ensures Keys(accesses) == Keys(accesses[..|accesses| - 1]) + {accesses[|accesses| - 1]}
  {
    assert accesses == accesses[..|accesses| - 1] + [accesses[|accesses| - 1]];
  }

  lemma AfterSize(capacity: nat, count: multiset<string>, residents: set<string>, key: string, e: Event)
    requires capacity > 0 && Allowed(capacity, count, residents, key, e) && |residents| <= capacity
    ensures var after := After(residents, key, e);
            && |after| == |residents| + (if IsMiss(e) then 1 else 0) - (if IsEviction(e) then 1 else 0)
            && |after| <= capacity && key in after && after <= residents + {key}
  {
  }

  /** Bookkeeping of any simulation. */
  lemma {:induction false} SimulationBalances(
      capacity: nat, count: multiset<string>, accesses: seq<string>, events: seq<Event>)
    requires |accesses| == |events| && capacity > 0 && Simulates(capacity, count, accesses, events)
    ensures Count(events, IsHit) + Count(events, IsMiss) == |accesses|
    ensures Count(events, IsMiss) == Count(events, IsEviction) + |Residents(accesses, events)|
    ensures |Residents(accesses, events)| <= capacity && Residents(accesses, events) <= Keys(accesses)
    ensures accesses != [] ==> accesses[|accesses| - 1] in Residents(accesses, events)
    decreases |accesses|
  {
    hide Allowed, After, Keys;
    if accesses != [] {
      var n := |accesses| - 1;
      SimulationBalances(capacity, count, accesses[..n], events[..n]);
      AfterSize(capacity, count, Residents(accesses[..n], events[..n]), accesses[n], events[n]);
      KeysSnoc(accesses);
    }
  }

  /** The other keys accessed at least as often as `key`. */
  function Rivals(key: string, count: multiset<string>, accesses: seq<string>): set<string> {
    set k | k in Keys(accesses) && k != key && count[k] >= count[key]
  }

  lemma VictimHasRivals(
      capacity: nat, count: multiset<string>, all: seq<string>, residents: set<string>, key: string, e: Event)
    requires Allowed(capacity, count, residents, key, e) && e.Replace? && residents <= Keys(all)
    ensures |Rivals(e.victim, count, all)| >= capacity - 1
  {
    var others := residents - {e.victim};
    assert others <= Rivals(e.victim, count, all);
    SubsetSize(others, Rivals(e.victim, count, all));
  }

  lemma {:induction false} SubsetSize(a: set<string>, b: set<string>)
    requires a <= b
    ensures |a| <= |b|
    decreases a
  {
    if x :| x in a {
      SubsetSize(a - {x}, b - {x});
    }
  }

  lemma NoKeys()
    ensures Keys([]) == {}
  {
  }

  lemma KeysOfPrefix(accesses: seq<string>, all: seq<string>)
    requires accesses <= all
    ensures Keys(accesses) <= Keys(all)
  {
  }

  /** A victim has many rivals, so a key with few is not one. */
  lemma FrequentNotVictim(
      capacity: nat, count: multiset<string>, all: seq<string>, residents: set<string>, x: string, e: Event,
      key: string)
    requires Allowed(capacity, count, residents, x, e) && residents <= Keys(all)
    requires |Rivals(key, count, all)| + 1 < capacity
    ensures e != Replace(key)
  {
    hide Rivals, Keys;
    if e.Replace? {
      VictimHasRivals(capacity, count, all, residents, x, e);
    }
  }

  lemma StaysResident(capacity: nat, count: multiset<string>, residents: set<string>, x: string, e: Event, key: string)
    requires Allowed(capacity, count, residents, x, e) && e != Replace(key)
    ensures key in After(residents, x, e) <==> key in residents || key == x
    ensures IsMiss(e) <==> x !in residents
  {
  }

  lemma InPrefixOrLast(accesses: seq<string>, key: string)
    requires accesses != []
    ensures var n := |accesses| - 1; key in accesses <==> key in accesses[..n] || key == accesses[n]
  {
  }

  /** A key with fewer than `capacity - 1` rivals is never evicted, so it misses once: at its first access. */
  lemma {:induction false} FrequentKeysStay(
      capacity: nat, count: multiset<string>, all: seq<string>, accesses: seq<string>, events: seq<Event>, key: string)
    requires |accesses| == |events| && capacity > 0 && Simulates(capacity, count, accesses, events) && accesses <= all
    requires |Rivals(key, count, all)| + 1 < capacity
    ensures Count(events, Evicts(key)) == 0
    ensures key in Residents(accesses, events) <==> key in accesses
    ensures MissesOf(key, accesses, events) == if key in accesses then 1 else 0
    decreases |accesses|
  {
    hide Rivals, Keys, Allowed, After, IsMiss;
    if accesses != [] {
      var n := |accesses| - 1;
      var before, e := Residents(accesses[..n], events[..n]), events[n];
      assert accesses[..n] <= all;
      FrequentKeysStay(capacity, count, all, accesses[..n], events[..n], key);
      SimulationBalances(capacity, count, accesses[..n], events[..n]);
      KeysOfPrefix(accesses[..n], all);
      FrequentNotVictim(capacity, count, all, before, accesses[n], e, key);
      StaysResident(capacity, count, before, accesses[n], e, key);
      InPrefixOrLast(accesses, key);
    }
  }

  /** When all distinct keys fit, nothing is evicted and each key misses once. */
  lemma {:induction false} EnoughRoom(
      capacity: nat, count: multiset<string>, all: seq<string>, accesses: seq<string>, events: seq<Event>)
    requires |accesses| == |events| && Simulates(capacity, count, accesses, events) && accesses <= all
    requires |Keys(all)| <= capacity
    ensures Residents(accesses, events) == Keys(accesses)
    ensures Count(events, IsEviction) == 0 && Count(events, IsMiss) == |Keys(accesses)|
    decreases |accesses|
  {
    hide Keys, Allowed, After;
    NoKeys();
    if accesses != [] {
      var n := |accesses| - 1;
      EnoughRoom(capacity, count, all, accesses[..n], events[..n]);
      KeysSnoc(accesses);
      KeysOfPrefix(accesses, all);
      SubsetSize(Keys(accesses), Keys(all));
      RoomStep(capacity, count, Keys(accesses[..n]), accesses[n], events[n]);
    }
  }

  lemma RoomStep(capacity: nat, count: multiset<string>, residents: set<string>, key: string, e: Event)
    requires Allowed(capacity, count, residents, key, e) && |residents + {key}| <= capacity
    ensures !e.Replace? && After(residents, key, e) == residents + {key}
    ensures |residents + {key}| == |residents| + if IsMiss(e) then 1 else 0
  {
    if e.Hit? {
      assert residents + {key} == residents;
    }
  }

  //
  // The simulation itself
  //

  datatype PolicyLog = PolicyLog(hits: nat, misses: nat, evictions: nat)

  function LogOf(events: seq<Event>): PolicyLog {
    PolicyLog(Count(events, IsHit), Count(events, IsMiss), Count(events, IsEviction))
  }

  /** Some run of the policy over the accesses, each key weighed by its total count, has these figures. */
  ghost predicate IsLogOf(capacity: nat, accesses: seq<string>, log: PolicyLog) {
    exists events: seq<Event> ::
      |events| == |accesses| && Simulates(capacity, multiset(accesses), accesses, events) && log == LogOf(events)
  }

  /** What the figures of any log satisfy. */
  lemma LogBalances(capacity: nat, accesses: seq<string>, log: PolicyLog)
    requires capacity > 0 && IsLogOf(capacity, accesses, log)
    ensures log.hits + log.misses == |accesses|
    ensures log.evictions <= log.misses <= log.evictions + capacity
    ensures |Keys(accesses)| <= capacity ==> log.misses == |Keys(accesses)| && log.evictions == 0
    ensures forall key :: |Rivals(key, multiset(accesses), accesses)| + 1 < capacity ==>
                            log.hits + 1 >= multiset(accesses)[key]
  {
    hide Simulates, Residents, Count;
    var events: seq<Event> :|
      |events| == |accesses| && Simulates(capacity, multiset(accesses), accesses, events) && log == LogOf(events);
    SimulationBalances(capacity, multiset(accesses), accesses, events);
    if |Keys(accesses)| <= capacity {
      EnoughRoom(capacity, multiset(accesses), accesses, accesses, events);
    }
    forall key | |Rivals(key, multiset(accesses), accesses)| + 1 < capacity
      ensures log.hits + 1 >= multiset(accesses)[key]
    {
      FrequentKeysStay(capacity, multiset(accesses), accesses, accesses, events, key);
      AccessesSplit(accesses, events, key);
    }
  }

  /** Each access of a key is one of its misses or a hit. */
  lemma {:induction false} AccessesSplit(accesses: seq<string>, events: seq<Event>, key: string)
    requires |accesses| == |events|
    ensures multiset(accesses)[key] <= Count(events, IsHit) + MissesOf(key, accesses, events)
    decreases |accesses|
  {
    if accesses != [] {
      var n := |accesses| - 1;
      AccessesSplit(accesses[..n], events[..n], key);
      assert accesses == accesses[..n] + [accesses[n]];
    }
  }

  /** The heap and the lookup set hold the same keys, each once, with their total counts. */
  ghost predicate Agree(items: seq<Item>, look: set<string>, hits: map<string, nat>) {
    && (forall x :: x in items ==> x.key in look && x.key in hits && x.hits == hits[x.key])
    && (forall k :: k in look ==> k in hits && Item(k, hits[k]) in items)
    && (forall x :: x in items ==> multiset(items)[x] == 1)
    && |items| == |look|
  }

  lemma AgreePush(items: seq<Item>, look: set<string>, hits: map<string, nat>, key: string, items': seq<Item>)
    requires Agree(items, look, hits) && key !in look && key in hits
    requires multiset(items') == multiset(items) + multiset{Item(key, hits[key])}
    ensures Agree(items', look + {key}, hits)
  {
    forall x
      ensures x in items' <==> x in items || x == Item(key, hits[key])
    {
      assert x in items' <==> x in multiset(items');
      assert x in items <==> x in multiset(items);
    }
    assert |items'| == |multiset(items')| == |multiset(items)| + 1;
  }

  lemma AgreePop(items: seq<Item>, look: set<string>, hits: map<string, nat>, x: Item, items': seq<Item>)
    requires Agree(items, look, hits) && x in items && multiset(items') == multiset(items) - multiset{x}
    ensures Agree(items', look - {x.key}, hits)
  {
    forall y
      ensures y in items' <==> y in items && y != x
    {
      assert y in items' <==> y in multiset(items');
      assert y in items <==> y in multiset(items);
    }
    assert |items'| == |multiset(items')| == |multiset(items)| - 1;
  }

  class BenchOptimal {
    const capacity: nat
    var hits: map<string, nat>
    var access: seq<string>

    /** `hits` counts how often each key occurs in `access`. */
    ghost predicate Valid()
      reads this
    {
      && (forall k :: k in hits <==> k in access)
      && (forall k :: k in hits ==> hits[k] == multiset(access)[k])
    }

    /** The conversion of the capacity to `uint64` wraps a negative one. */
    constructor (capacity: int)
      ensures Valid() && access == [] && this.capacity == capacity % 0x1_0000_0000_0000_0000
    {
      this.capacity := capacity % 0x1_0000_0000_0000_0000;
      hits, access := map[], [];
    }

    method Record(key: string)
      requires Valid()
      modifies this
      ensures Valid() && access == old(access) + [key]
    {
      hits := hits[key := (if key in hits then hits[key] else 0) + 1];
      access := access + [key];
    }

    /** Never finds anything: the accesses are only recorded. */
    method Get(key: string) returns (found: bool)
      requires Valid()
      modifies this
      ensures Valid() && access == old(access) + [key] && !found
    {
      Record(key);
      return false;
    }

    method Set(key: string)
      requires Valid()
      modifies this
      ensures Valid() && access == old(access) + [key]
    {
      Record(key);
    }

    /** Replays the accesses. With no capacity the first access would pop an empty heap. */
    method Log() returns (log: PolicyLog)
      requires Valid() && (capacity > 0 || access == [])
      ensures IsLogOf(capacity, access, log)
    {
      hide IsHeap, Agree, Replayed, Allowed, After, Valid;
      log := PolicyLog(0, 0, 0);
      var look: set<string> := {};
      var data := new OptimalHeap();
      ghost var events: seq<Event> := [];
      EmptyAgrees(hits);
      EmptyReplay(capacity, multiset(access));
      assert access[..0] == [];
      for i := 0 to |access|
        invariant fresh(data) && Valid() && IsHeap(data.items) && Agree(data.items, look, hits)
        invariant Replayed(capacity, multiset(access), access[..i], events, look, log)
      {
        var key := access[i];
        ghost var before, e := look, Hit;
        AllowedHere(capacity, hits, multiset(access), data.items, look, key);
        if key in look {
          log := log.(hits := log.hits + 1);
          HitKeeps(look, key);
        } else {
          var evicted;
          look, evicted, e := Admit(data, look, key);
          if evicted {
            log := log.(evictions := log.evictions + 1);
          }
          log := log.(misses := log.misses + 1);
        }
        ReplayOne(capacity, multiset(access), access[..i], events, before, key, e, log);
        assert access[..i + 1] == access[..i] + [key];
        events := events + [e];
      }
      assert access[..|access|] == access;
      ReplayedLog(capacity, multiset(access), access, events, look, log);
    }

    /** Takes in a key that is not resident, making room first when the cache is full. */
    method Admit(data: OptimalHeap, look: set<string>, key: string)
      returns (look': set<string>, evicted: bool, ghost e: Event)
      requires Valid() && capacity > 0 && key in access && key !in look
      requires IsHeap(data.items) && Agree(data.items, look, hits)
      modifies data
      ensures IsHeap(data.items) && Agree(data.items, look', hits)
      ensures Allowed(capacity, multiset(access), look, key, e) && !e.Hit?
      ensures evicted == e.Replace? && look' == After(look, key, e)
    {
      hide IsHeap, Agree, Allowed;
      look', evicted, e := look, false, Load;
      AllowedHere(capacity, hits, multiset(access), data.items, look, key);
      if |data.items| >= capacity {
        ghost var before := data.items;
        var victim := data.Pop();
        AgreePop(before, look, hits, victim, data.items);
        VictimAllowed(capacity, hits, multiset(access), before, look, key, victim);
        look', evicted, e := look - {victim.key}, true, Replace(victim.key);
      }
      ghost var before := data.items;
      data.Push(Item(key, hits[key]));
      AgreePush(before, look', hits, key, data.items);
      look' := look' + {key};
    }
  }

  lemma EmptyAgrees(hits: map<string, nat>)
    ensures Agree([], {}, hits) && IsHeap([])
  {
  }

  lemma AllowedHere(
      capacity: nat, hits: map<string, nat>, count: multiset<string>, items: seq<Item>, look: set<string>, key: string)
    requires Agree(items, look, hits)
    ensures key in look ==> Allowed(capacity, count, look, key, Hit)
    ensures key !in look && |items| < capacity ==> Allowed(capacity, count, look, key, Load)
    ensures |items| > 0 <==> look != {}
  {
  }

  lemma VictimAllowed(
      capacity: nat, hits: map<string, nat>, count: multiset<string>, items: seq<Item>, look: set<string>, key: string,
      victim: Item)
    requires Agree(items, look, hits) && key !in look && |items| >= capacity && victim in items
    requires forall y :: y in items ==> victim.hits <= y.hits
    requires forall k :: k in hits ==> hits[k] == count[k]
    ensures Allowed(capacity, count, look, key, Replace(victim.key))
  {
    forall r | r in look
      ensures count[victim.key] <= count[r]
    {
      assert Item(r, hits[r]) in items;
    }
  }

  /** The state of the replay after `done`: the lookup set and the log are those of the events so far. */
  ghost predicate Replayed(
    capacity: nat, count: multiset<string>, done: seq<string>, events: seq<Event>, look: set<string>, log: PolicyLog)
  {
    && |done| == |events| && Simulates(capacity, count, done, events) && look == Residents(done, events)
    && log == LogOf(events)
  }

  lemma EmptyReplay(capacity: nat, count: multiset<string>)
    ensures Replayed(capacity, count, [], [], {}, PolicyLog(0, 0, 0))
  {
  }

  lemma HitKeeps(look: set<string>, key: string)
    ensures After(look, key, Hit) == look
  {
  }

  lemma ReplayedLog(
    capacity: nat, count: multiset<string>, done: seq<string>, events: seq<Event>, look: set<string>, log: PolicyLog)
    requires Replayed(capacity, count, done, events, look, log)
    ensures count == multiset(done) ==> IsLogOf(capacity, done, log)
  {
  }

  lemma ReplayOne(capacity: nat, count: multiset<string>, done: seq<string>, events: seq<Event>, look: set<string>,
                  key: string, e: Event, log: PolicyLog)
    requires Allowed(capacity, count, look, key, e)
    requires var h, m, v := if e.Hit? then 1 else 0, if e.Hit? then 0 else 1, if e.Replace? then 1 else 0;
             h <= log.hits && m <= log.misses && v <= log.evictions
             && (var before := PolicyLog(log.hits - h, log.misses - m, log.evictions - v);
                 Replayed(capacity, count, done, events, look, before))
    ensures Replayed(capacity, count, done + [key], events + [e], After(look, key, e), log)
  {
    hide Allowed, After;
    assert (done + [key])[..|done|] == done && (events + [e])[..|events|] == events;
  }
}
