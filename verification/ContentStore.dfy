/** The bounded store of content: what it evicts to make room, and what it never does. */
module ContentStore {
  import opened Common

  const MaxBundleBytes := 6 * 1024 * 1024
  const MaxQuota := 1024 * 1024 * 1024

  datatype Entry = Entry(size: nat, pinned: bool, reserved: bool, accessed: int, expires: int)

  type Index = map<Id, Entry>

  function Sizes(x: Index): map<Id, nat> {
    map id | id in x :: x[id].size
  }

  ghost function Bytes(x: Index): nat {
    Total(Sizes(x))
  }

  function Expired(x: Index, now: int): set<Id> {
    set id | id in x && x[id].expires <= now
  }

  /** Live content nobody pinned or reserved. */
  function Eligible(x: Index, now: int): set<Id> {
    set id | id in x && x[id].expires > now && !x[id].pinned && !x[id].reserved
  }

  /** Live content that must not be touched. */
  function Protected(x: Index, now: int): set<Id> {
    set id | id in x && x[id].expires > now && (x[id].pinned || x[id].reserved)
  }

  /** Least recently used first; the address breaks ties. */
  predicate Before(x: Index, a: Id, b: Id)
    requires a in x && b in x
  {
    x[a].accessed < x[b].accessed || (x[a].accessed == x[b].accessed && a < b)
  }

  /** What the store is asked to make room for. */
  datatype Need = Need(bytes: nat, objects: nat, quota: nat, maxObjects: nat)

  ghost predicate Fits(x: Index, gone: set<Id>, need: Need) {
    Bytes(x - gone) + need.bytes <= need.quota && |x - gone| + need.objects <= need.maxObjects
  }

  ghost predicate IsOldest(x: Index, candidates: set<Id>, id: Id)
    requires candidates <= x.Keys
  {
    id in candidates && forall other :: other in candidates && other != id ==> Before(x, id, other)
  }

  lemma {:induction false} OldestExists(x: Index, candidates: set<Id>) returns (id: Id)
    requires candidates <= x.Keys && candidates != {}
    ensures IsOldest(x, candidates, id)
    decreases |candidates|
  {
    var a :| a in candidates;
    if candidates == {a} {
      id := a;
    } else {
      var b := OldestExists(x, candidates - {a});
      id := if Before(x, a, b) then a else b;
      forall other | other in candidates && other != id ensures Before(x, id, other) {
        if other != a && other != b { assert Before(x, b, other); }
      }
    }
  }

  ghost function Oldest(x: Index, candidates: set<Id>): (id: Id)
    requires candidates <= x.Keys && candidates != {}
    ensures IsOldest(x, candidates, id)
  {
    assert exists id :: IsOldest(x, candidates, id) by { var id := OldestExists(x, candidates); }
    var id :| IsOldest(x, candidates, id);
    id
  }

  lemma OldestIsUnique(x: Index, candidates: set<Id>, a: Id, b: Id)
    requires candidates <= x.Keys && IsOldest(x, candidates, a) && IsOldest(x, candidates, b)
    ensures a == b
  {
  }

  /** Takes candidates, oldest first, until the rest fits or none is left. */
  ghost function Evict(x: Index, gone: set<Id>, candidates: set<Id>, need: Need): set<Id>
    requires candidates <= x.Keys
    decreases |candidates|
  {
    if Fits(x, gone, need) || candidates == {} then gone
    else
      var id := Oldest(x, candidates);
      Evict(x, gone + {id}, candidates - {id}, need)
  }

  /** What goes to make room, or nothing where that cannot be done. */
  ghost function Planned(x: Index, need: Need, now: int): (plan: Option<set<Id>>)
    ensures plan.Some? ==> plan.value <= x.Keys
  {
    EvictTakesOldest(x, Expired(x, now), Eligible(x, now), need);
    var gone := Evict(x, Expired(x, now), Eligible(x, now), need);
    if Fits(x, gone, need) then Some(gone) else None
  }

  // What a plan is

  lemma MoreRoom(x: Index, a: set<Id>, b: set<Id>, need: Need)
    requires a <= b && Fits(x, a, need)
    ensures Fits(x, b, need)
  {
    TotalMonotone(Sizes(x - b), Sizes(x - a));
    assert (x - b).Keys == x.Keys - b && (x - a).Keys == x.Keys - a;
    CardinalitySubset((x - b).Keys, (x - a).Keys);
  }

  /** Everything older than something taken is taken too. */
  ghost predicate TakesOldest(x: Index, gone: set<Id>, candidates: set<Id>)
    requires candidates <= x.Keys
  {
    forall a, b :: a in candidates && b in candidates && a in gone && b !in gone ==> Before(x, a, b)
  }

  lemma NoneTaken(x: Index, gone: set<Id>, candidates: set<Id>)
    requires candidates <= x.Keys && gone !! candidates
    ensures TakesOldest(x, gone, candidates)
  {
  }

  lemma TakesStep(x: Index, gone: set<Id>, candidates: set<Id>, id: Id)
    requires candidates <= x.Keys && IsOldest(x, candidates, id) && id in gone && TakesOldest(x, gone, candidates - {id})
    ensures TakesOldest(x, gone, candidates)
  {
    hide Before;
  }

  lemma {:induction false} EvictTakesOldest(x: Index, gone: set<Id>, candidates: set<Id>, need: Need)
    requires candidates <= x.Keys && gone !! candidates
    ensures gone <= Evict(x, gone, candidates, need) <= gone + candidates
    ensures TakesOldest(x, Evict(x, gone, candidates, need), candidates)
    ensures !Fits(x, Evict(x, gone, candidates, need), need) ==> Evict(x, gone, candidates, need) == gone + candidates
    decreases |candidates|
  {
    hide Fits, Before, TakesOldest;
    if !Fits(x, gone, need) && candidates != {} {
      var id := Oldest(x, candidates);
      EvictTakesOldest(x, gone + {id}, candidates - {id}, need);
      TakesStep(x, Evict(x, gone, candidates, need), candidates, id);
    } else {
      NoneTaken(x, gone, candidates);
    }
  }

  /** The candidate taken last. */
  ghost predicate IsLast(x: Index, taken: set<Id>, last: Id)
    requires taken <= x.Keys
  {
    last in taken && forall other :: other in taken && other != last ==> Before(x, other, last)
  }

  /** One candidate less would not have been enough. */
  lemma {:induction false} EvictIsShortest(x: Index, gone: set<Id>, candidates: set<Id>, need: Need, last: Id)
    requires candidates <= x.Keys && gone !! candidates && Evict(x, gone, candidates, need) - gone <= x.Keys
    requires IsLast(x, Evict(x, gone, candidates, need) - gone, last)
    ensures !Fits(x, Evict(x, gone, candidates, need) - {last}, need)
    decreases |candidates|
  {
    hide Fits, Before, TakesOldest;
    var all := Evict(x, gone, candidates, need);
    EvictTakesOldest(x, gone, candidates, need);
    if !Fits(x, gone, need) && candidates != {} {
      var id := Oldest(x, candidates);
      EvictTakesOldest(x, gone + {id}, candidates - {id}, need);
      if last == id {
        OnlyOne(x, candidates, all - gone, last);
        assert all - {last} <= gone;
        if Fits(x, all - {last}, need) { MoreRoom(x, all - {last}, gone, need); }
      } else {
        EvictIsShortest(x, gone + {id}, candidates - {id}, need, last);
      }
    }
  }

  /** First and last at once: there is no other. */
  lemma OnlyOne(x: Index, candidates: set<Id>, taken: set<Id>, id: Id)
    requires taken <= candidates <= x.Keys && IsOldest(x, candidates, id) && IsLast(x, taken, id)
    ensures taken == {id}
  {
  }

  /** A plan exists exactly when the limits can be met without touching live content that is pinned or reserved. */
  lemma PlanExactly(x: Index, need: Need, now: int)
    ensures Planned(x, need, now).Some? <==> exists gone: set<Id> :: gone <= x.Keys && gone !! Protected(x, now) && Fits(x, gone, need)
  {
    hide Fits;
    var everything := Expired(x, now) + Eligible(x, now);
    EvictTakesOldest(x, Expired(x, now), Eligible(x, now), need);
    if Planned(x, need, now).Some? {
      var gone := Planned(x, need, now).value;
      assert gone <= x.Keys && gone !! Protected(x, now);
    }
    if gone: set<Id> :| gone <= x.Keys && gone !! Protected(x, now) && Fits(x, gone, need) {
      assert gone <= everything;
      MoreRoom(x, gone, everything, need);
    }
  }

  /** A plan takes everything expired and, of the rest, the shortest oldest-first run that makes the limits hold. */
  lemma PlanIsLRU(x: Index, need: Need, now: int)
    requires Planned(x, need, now).Some?
    ensures var gone := Planned(x, need, now).value;
      && Expired(x, now) <= gone <= Expired(x, now) + Eligible(x, now) && Fits(x, gone, need)
      && TakesOldest(x, gone, Eligible(x, now))
    ensures var gone := Planned(x, need, now).value;
      forall last :: IsLast(x, gone * Eligible(x, now), last) ==> !Fits(x, gone - {last}, need)
  {
    hide Fits, IsLast;
    var expired, eligible := Expired(x, now), Eligible(x, now);
    var gone := Planned(x, need, now).value;
    EvictTakesOldest(x, expired, eligible, need);
    assert gone - expired == gone * eligible;
    forall last | IsLast(x, gone * eligible, last) ensures !Fits(x, gone - {last}, need) {
      EvictIsShortest(x, expired, eligible, need, last);
    }
  }

  // Plans in terms of the entries

  /** Live, and neither pinned nor reserved. */
  predicate Disposable(e: Entry, now: int) {
    now < e.expires && !e.pinned && !e.reserved
  }

  /** Live, and pinned or reserved. */
  function Kept(x: Index, now: int): Index {
    map id | id in x && now < x[id].expires && (x[id].pinned || x[id].reserved) :: x[id]
  }

  predicate LessRecent(x: Index, a: Id, b: Id)
    requires a in x && b in x
  {
    x[a].accessed < x[b].accessed || (x[a].accessed == x[b].accessed && a < b)
  }

  ghost predicate RoomFor(x: Index, need: Need) {
    Bytes(x) + need.bytes <= need.quota && |x| + need.objects <= need.maxObjects
  }

  lemma EvictableIs(x: Index, now: int)
    ensures x - (Expired(x, now) + Eligible(x, now)) == Kept(x, now)
    ensures forall id :: id in Eligible(x, now) <==> id in x && Disposable(x[id], now)
    ensures forall id :: id in Expired(x, now) <==> id in x && x[id].expires <= now
  {
  }

  /** Room cannot be made exactly where what is live and pinned or reserved is too much by itself. */
  lemma NoPlanExactly(x: Index, need: Need, now: int)
    ensures Planned(x, need, now).None? <==> !RoomFor(Kept(x, now), need)
  {
    hide Fits, Expired, Eligible, Kept, Bytes, TakesOldest;
    var expired, eligible := Expired(x, now), Eligible(x, now);
    EvictableIs(x, now);
    Separate(x, now);
    var all := Evict(x, expired, eligible, need);
    EvictTakesOldest(x, expired, eligible, need);
    FitsIsRoom(x, expired + eligible, need);
    if Fits(x, all, need) {
      MoreRoom(x, all, expired + eligible, need);
    }
  }

  /** Where room is made, everything expired goes, and of what is disposable the least recently used, in order of
      address among equals; nothing else goes. */
  lemma PlanTakes(x: Index, need: Need, now: int)
    requires Planned(x, need, now).Some?
    ensures var gone := Planned(x, need, now).value;
      && gone <= x.Keys && RoomFor(x - gone, need)
      && (forall id :: id in x && x[id].expires <= now ==> id in gone)
      && (forall id :: id in gone ==> x[id].expires <= now || Disposable(x[id], now))
      && (forall a, b :: a in gone && b in x && b !in gone && Disposable(x[a], now) && Disposable(x[b], now) ==> LessRecent(x, a, b))
  {
    hide Fits, Expired, Eligible, Kept, Bytes, Planned, Disposable;
    EvictableIs(x, now);
    Separate(x, now);
    PlanIsLRU(x, need, now);
    FitsIsRoom(x, Planned(x, need, now).value, need);
  }

  /** And no more goes than it takes: with the last of them back there would not be room. */
  lemma PlanStops(x: Index, need: Need, now: int)
    requires Planned(x, need, now).Some? && exists id :: id in Planned(x, need, now).value && Disposable(x[id], now)
    ensures exists last :: LastToGo(x, Planned(x, need, now).value, need, now, last)
  {
    hide Fits, Expired, Eligible, Kept, Bytes, Planned, Disposable, TakesOldest, Before;
    var gone := Planned(x, need, now).value;
    var taken := gone * Eligible(x, now);
    EvictableIs(x, now);
    Separate(x, now);
    PlanIsLRU(x, need, now);
    var id :| id in gone && Disposable(x[id], now);
    assert id in taken;
    var last := NewestOf(x, taken);
    LastIsNeeded(x, gone, need, last);
    LastGoes(x, gone, need, now, last);
  }

  lemma LastGoes(x: Index, gone: set<Id>, need: Need, now: int, last: Id)
    requires gone <= x.Keys && Eligible(x, now) <= x.Keys && IsLast(x, gone * Eligible(x, now), last)
    requires Bytes(x - gone) + x[last].size + need.bytes > need.quota || |x - gone| + 1 + need.objects > need.maxObjects
    ensures LastToGo(x, gone, need, now, last)
  {
    hide Bytes, Eligible, Expired, Kept, Disposable;
    EvictableIs(x, now);
    forall other | other in gone && other != last && Disposable(x[other], now) ensures LessRecent(x, other, last) {
      assert other in gone * Eligible(x, now);
    }
    assert last in gone * Eligible(x, now);
  }

  /** The disposable entry taken last; without it there would not be room. */
  ghost predicate LastToGo(x: Index, gone: set<Id>, need: Need, now: int, last: Id)
    requires gone <= x.Keys
  {
    && last in gone && Disposable(x[last], now)
    && (forall other :: other in gone && other != last && Disposable(x[other], now) ==> LessRecent(x, other, last))
    && (Bytes(x - gone) + x[last].size + need.bytes > need.quota || |x - gone| + 1 + need.objects > need.maxObjects)
  }

  lemma Separate(x: Index, now: int)
    ensures Expired(x, now) !! Eligible(x, now) && Expired(x, now) <= x.Keys && Eligible(x, now) <= x.Keys
  {
  }

  lemma FitsIsRoom(x: Index, gone: set<Id>, need: Need)
    ensures Fits(x, gone, need) <==> RoomFor(x - gone, need)
  {
  }

  lemma LastIsNeeded(x: Index, gone: set<Id>, need: Need, last: Id)
    requires gone <= x.Keys && last in gone && !Fits(x, gone - {last}, need)
    ensures Bytes(x - gone) + x[last].size + need.bytes > need.quota || |x - gone| + 1 + need.objects > need.maxObjects
  {
    hide Bytes;
    OneGone(x, gone - {last}, last);
    assert gone - {last} + {last} == gone;
  }

  lemma {:induction false} NewestOf(x: Index, taken: set<Id>) returns (last: Id)
    requires taken <= x.Keys && taken != {}
    ensures IsLast(x, taken, last)
    decreases |taken|
  {
    var a :| a in taken;
    if taken == {a} {
      last := a;
    } else {
      var b := NewestOf(x, taken - {a});
      last := if Before(x, a, b) then b else a;
      forall other | other in taken && other != last ensures Before(x, other, last) {
        if other != a && other != b { assert Before(x, other, b); }
      }
    }
  }

  // Reservations

  function Reserved(x: Index): set<Id> {
    set id | id in x && x[id].reserved
  }

  function Reserving(x: Index, wanted: set<Id>): Index {
    map id | id in x :: x[id].(reserved := id in wanted)
  }

  /** What stays in memory when the index could not be written: nothing loses its reservation. */
  function ReservingMore(x: Index, wanted: set<Id>): Index {
    map id | id in x :: x[id].(reserved := id in wanted || x[id].reserved)
  }

  lemma ReservedAfter(x: Index, wanted: set<Id>)
    requires wanted <= x.Keys
    ensures Reserved(Reserving(x, wanted)) == wanted
    ensures Reserved(ReservingMore(x, wanted)) == wanted + Reserved(x)
    ensures forall id :: id in x ==> Reserving(x, wanted)[id].pinned == x[id].pinned == ReservingMore(x, wanted)[id].pinned
    ensures Bytes(Reserving(x, wanted)) == Bytes(x) == Bytes(ReservingMore(x, wanted))
    ensures Reserving(x, wanted).Keys == x.Keys == ReservingMore(x, wanted).Keys
  {
    assert Sizes(Reserving(x, wanted)) == Sizes(x) == Sizes(ReservingMore(x, wanted));
  }

  lemma OlderThanAll(x: Index, candidates: set<Id>, oldest: Id, id: Id)
    requires candidates <= x.Keys && id in candidates && IsOldest(x, candidates - {id}, oldest) && Before(x, id, oldest)
    ensures IsOldest(x, candidates, id)
  {
    forall other | other in candidates && other != id ensures Before(x, id, other) {
      if other != oldest { assert Before(x, oldest, other); }
    }
  }

  lemma NotOlder(x: Index, a: Id, b: Id)
    requires a in x && b in x && a != b && !Before(x, b, a)
    ensures Before(x, a, b)
  {
  }

  lemma OneGone(x: Index, gone: set<Id>, id: Id)
    requires gone <= x.Keys && id in x && id !in gone
    ensures Bytes(x - gone) == x[id].size + Bytes(x - (gone + {id}))
    ensures |x - gone| == |x - (gone + {id})| + 1
  {
    TotalRemove(Sizes(x - gone), id);
    assert Sizes(x - gone) - {id} == Sizes(x - (gone + {id}));
    assert (x - gone).Keys == (x - (gone + {id})).Keys + {id};
  }

  lemma EmptyBytes()
    ensures Bytes(map[]) == 0
  {
    assert Sizes(map[]) == map[];
    TotalEmpty<Id>();
  }

  lemma Counted(x: Index, gone: set<Id>)
    requires gone <= x.Keys
    ensures |x - gone| == |x| - |gone|
  {
    assert (x - gone).Keys == x.Keys - gone;
  }

  lemma NotYet(x: Index, gone: set<Id>, need: Need, bytes: int, count: int)
    requires bytes == Bytes(x - gone) + need.bytes && count == |x - gone| + need.objects
    ensures Fits(x, gone, need) <==> bytes <= need.quota && count <= need.maxObjects
  {
    hide Total;
  }

  lemma FewerFit(x: Index, removed: set<Id>, quota: nat, maxObjects: nat)
    requires Fits(x, {}, Need(0, 0, quota, maxObjects))
    ensures Fits(x - removed, {}, Need(0, 0, quota, maxObjects))
  {
    MoreRoom(x, {}, removed, Need(0, 0, quota, maxObjects));
    assert x - removed - {} == x - removed;
  }

  lemma PlanFits(x: Index, need: Need, now: int)
    requires Planned(x, need, now).Some?
    ensures Fits(x - Planned(x, need, now).value, {}, need)
  {
    var gone := Planned(x, need, now).value;
    assert x - gone - {} == x - gone;
  }

  lemma WithoutFits(x: Index, need: Need)
    requires need.bytes == 0 && need.objects == 0 && Fits(x, {}, need)
    ensures Fits(x, {}, Need(0, 0, need.quota, need.maxObjects))
  {
  }

  lemma Admitted(x: Index, id: Id, e: Entry, quota: nat, maxObjects: nat)
    requires id !in x && Fits(x, {}, Need(e.size, 1, quota, maxObjects))
    ensures Fits(x[id := e], {}, Need(0, 0, quota, maxObjects))
  {
    hide Bytes;
    assert x - {} == x && x[id := e] - {} == x[id := e];
    BytesAdd(x, id, e);
    assert |x[id := e]| == |x| + 1 by { assert x[id := e].Keys == x.Keys + {id}; }
  }

  lemma BytesAdd(x: Index, id: Id, e: Entry)
    requires id !in x
    ensures Bytes(x[id := e]) == Bytes(x) + e.size
  {
    hide Total;
    TotalInsert(Sizes(x), id, e.size);
    assert Sizes(x[id := e]) == Sizes(x)[id := e.size];
  }

  lemma SameFit(x: Index, y: Index, quota: nat, maxObjects: nat)
    requires Fits(x, {}, Need(0, 0, quota, maxObjects)) && x.Keys == y.Keys && Bytes(x) == Bytes(y)
    ensures Fits(y, {}, Need(0, 0, quota, maxObjects))
  {
    assert x - {} == x && y - {} == y;
    assert |x| == |x.Keys| && |y| == |y.Keys|;
  }

  lemma ReservingFits(x: Index, wanted: set<Id>, quota: nat, maxObjects: nat)
    requires Fits(x, {}, Need(0, 0, quota, maxObjects)) && wanted <= x.Keys
    ensures Fits(Reserving(x, wanted), {}, Need(0, 0, quota, maxObjects))
    ensures Fits(ReservingMore(x, wanted), {}, Need(0, 0, quota, maxObjects))
    ensures Reserving(x, wanted).Keys == x.Keys == ReservingMore(x, wanted).Keys
  {
    hide Fits, Reserving, ReservingMore, Bytes;
    ReservedAfter(x, wanted);
    SameFit(x, Reserving(x, wanted), quota, maxObjects);
    SameFit(x, ReservingMore(x, wanted), quota, maxObjects);
  }

  lemma AddReserved(x: Index, id: Id)
    requires id in x
    ensures Reserved(x) + {id} <= x.Keys
    ensures Reserved(x) <= Reserved(Reserving(x, Reserved(x) + {id})) && Reserved(x) <= Reserved(ReservingMore(x, Reserved(x) + {id}))
  {
  }

  lemma ReservedFit(x: Index, id: Id, quota: nat, maxObjects: nat)
    requires id in x && Fits(x, {}, Need(0, 0, quota, maxObjects))
    ensures |Reserved(x) + {id}| <= maxObjects && (Reserved(x) + {id} == Reserved(x) <==> x[id].reserved)
  {
    hide Bytes;
    assert x - {} == x;
    CardinalitySubset(Reserved(x) + {id}, x.Keys);
    assert |x| == |x.Keys|;
  }

  /** Where a removal stopped: what has expired goes first, in any order, and then the rest, oldest first. */
  ghost predicate StoppedAt(x: Index, ids: set<Id>, removed: set<Id>, at: Id, broken: set<Id>, now: int)
    requires ids <= x.Keys
  {
    && at in ids * broken && removed <= ids - broken
    && (if at in Expired(x, now) then removed <= Expired(x, now)
        else forall id :: id in ids ==> (id in removed <==> id in Expired(x, now) || Before(x, id, at)))
  }

  lemma StoppedEarly(x: Index, ids: set<Id>, removed: set<Id>, at: Id, broken: set<Id>, now: int)
    requires ids <= x.Keys && removed <= ids * Expired(x, now) - broken && at in ids * Expired(x, now) * broken
    ensures StoppedAt(x, ids, removed, at, broken, now)
  {
    hide Expired;
  }

  lemma StoppedLate(x: Index, ids: set<Id>, more: set<Id>, at: Id, broken: set<Id>, now: int)
    requires ids <= x.Keys && ids * Expired(x, now) !! broken
    requires var rest := ids - ids * Expired(x, now); at in rest * broken && more <= rest - broken
    requires var rest := ids - ids * Expired(x, now); forall id :: id in rest ==> (id in more <==> Before(x, id, at))
    ensures StoppedAt(x, ids, ids * Expired(x, now) + more, at, broken, now)
  {
    hide Expired, Before;
  }

  lemma OthersLeft(x: Index, y: Index, ids: set<Id>, expired: set<Id>)
    requires ids <= x.Keys && y == x - expired
    ensures ids - expired <= y.Keys && forall id :: id in ids - expired ==> y[id] == x[id]
  {
  }

  lemma RemovedTwice(x: Index, ids: set<Id>, expired: set<Id>, more: set<Id>)
    ensures x - expired - more == x - (expired + more) && (expired <= ids && more == ids - expired ==> expired + more == ids)
  {
  }

  lemma OneRemoved(x: Index, ids: set<Id>, todo: set<Id>, removed: set<Id>, id: Id)
    requires id in todo && todo <= ids && removed == ids - todo
    ensures x - removed - {id} == x - (removed + {id}) && removed + {id} == ids - (todo - {id})
  {
  }

  lemma OldestStays(x: Index, y: Index, todo: set<Id>)
    requires todo <= x.Keys && todo <= y.Keys && (forall id :: id in y ==> id in x && y[id] == x[id]) && todo != {}
    ensures IsOldest(x, todo, Oldest(y, todo))
  {
    assert IsOldest(y, todo, Oldest(y, todo));
  }

  lemma AllOlder(x: Index, ids: set<Id>, todo: set<Id>, id: Id)
    requires todo <= ids <= x.Keys && IsOldest(x, todo, id) && forall a, b :: a in ids - todo && b in todo ==> Before(x, a, b)
    ensures forall other :: other in ids ==> (other in ids - todo <==> Before(x, other, id))
  {
  }

  lemma SameOrder(x: Index, y: Index, ids: set<Id>, at: Id)
    requires ids <= x.Keys && ids <= y.Keys && (forall id :: id in ids ==> y[id] == x[id]) && at in ids
    ensures forall id :: id in ids ==> (Before(x, id, at) <==> Before(y, id, at))
  {
  }

  lemma EvictStep(x: Index, gone: set<Id>, candidates: set<Id>, need: Need)
    requires candidates <= x.Keys && candidates != {} && !Fits(x, gone, need)
    ensures var id := Oldest(x, candidates);
      id in candidates && Evict(x, gone, candidates, need) == Evict(x, gone + {id}, candidates - {id}, need)
  {
    hide Fits, Before;
  }

  lemma EvictDone(x: Index, gone: set<Id>, candidates: set<Id>, need: Need)
    requires candidates <= x.Keys && (candidates == {} || Fits(x, gone, need))
    ensures Evict(x, gone, candidates, need) == gone
  {
    hide Fits, Before;
  }

  class Store {
    var quota: nat
    const maxObjects: nat
    var index: Index

    constructor (quota: nat, maxObjects: nat)
      requires 1 <= quota <= MaxQuota && 1 <= maxObjects
      ensures this.quota == quota && this.maxObjects == maxObjects && index == map[] && Valid()
    {
      this.quota, this.maxObjects, index := quota, maxObjects, map[];
      new;
      assert Sizes(index) == map[];
      TotalEmpty<Id>();
    }

    ghost predicate Valid()
      reads this
    {
      Fits(index, {}, Need(0, 0, quota, maxObjects))
    }

    /** The eligible object that was used longest ago. */
    method FindOldest(candidates: set<Id>) returns (oldest: Id)
      requires candidates <= index.Keys && candidates != {}
      ensures oldest == Oldest(index, candidates)
    {
      oldest :| oldest in candidates;
      var todo := candidates - {oldest};
      while todo != {}
        invariant todo <= candidates && IsOldest(index, candidates - todo, oldest)
        decreases |todo|
      {
        var id :| id in todo;
        todo := todo - {id};
        if index[id].accessed < index[oldest].accessed || (index[id].accessed == index[oldest].accessed && id < oldest) {
          OlderThanAll(index, candidates - todo, oldest, id);
          oldest := id;
        } else {
          NotOlder(index, oldest, id);
        }
      }
      assert candidates - todo == candidates;
      OldestIsUnique(index, candidates, oldest, Oldest(index, candidates));
    }

    method SumOf(ids: set<Id>) returns (total: nat)
      requires ids <= index.Keys
      ensures total + Bytes(index - ids) == Bytes(index)
    {
      total := 0;
      var todo := ids;
      assert index - (ids - todo) == index;
      while todo != {}
        invariant todo <= ids && total + Bytes(index - (ids - todo)) == Bytes(index)
        decreases |todo|
      {
        var id :| id in todo;
        OneGone(index, ids - todo, id);
        assert (ids - todo) + {id} == ids - (todo - {id});
        total := total + index[id].size;
        todo := todo - {id};
      }
      assert ids - todo == ids;
    }

    method Plan(need: Need, now: int) returns (plan: Option<set<Id>>)
      ensures plan == Planned(index, need, now)
    {
      hide Fits, Before, Bytes, TakesOldest;
      var total := SumOf(index.Keys);
      assert index - index.Keys == map[];
      EmptyBytes();
      var expired := set id | id in index && index[id].expires <= now;
      var eligible := set id | id in index && index[id].expires > now && !index[id].pinned && !index[id].reserved;
      var freed := SumOf(expired);
      Counted(index, expired);
      var bytes, count := need.bytes + total - freed, |index| + need.objects - |expired|;
      var gone, rest := expired, eligible;
      while rest != {} && !(bytes <= need.quota && count <= need.maxObjects)
        invariant rest <= eligible && gone <= index.Keys && gone !! rest
        invariant bytes == Bytes(index - gone) + need.bytes && count == |index - gone| + need.objects
        invariant Evict(index, expired, eligible, need) == Evict(index, gone, rest, need)
        decreases |rest|
      {
        NotYet(index, gone, need, bytes, count);
        var id := FindOldest(rest);
        OneGone(index, gone, id);
        EvictStep(index, gone, rest, need);
        gone, rest := gone + {id}, rest - {id};
        bytes, count := bytes - index[id].size, count - 1;
      }
      NotYet(index, gone, need, bytes, count);
      EvictDone(index, gone, rest, need);
      if bytes > need.quota || count > need.maxObjects { return None; }
      return Some(gone);
    }

    /** Deletes objects in any order; stops at the first the disk refuses. */
    method RemoveAny(ids: set<Id>, broken: set<Id>) returns (ok: bool, ghost removed: set<Id>, ghost at: Id)
      modifies `index
      ensures ok == (ids !! broken) && index == old(index) - removed && removed <= ids - broken
      ensures if ok then removed == ids else at in ids * broken
    {
      var todo := ids;
      removed, at := {}, 0;
      while todo != {}
        invariant todo <= ids && removed == ids - todo && removed !! broken && index == old(index) - removed
        decreases |todo|
      {
        var id :| id in todo;
        if id in broken { return false, removed, id; }
        OneRemoved(old(index), ids, todo, removed, id);
        index := index - {id};
        removed, todo := removed + {id}, todo - {id};
      }
      ok := true;
    }

    /** Deletes objects, the one used longest ago first; stops at the first the disk refuses. */
    method RemoveInTurn(ids: set<Id>, broken: set<Id>) returns (ok: bool, ghost removed: set<Id>, ghost at: Id)
      requires ids <= index.Keys
      modifies `index
      ensures ok == (ids !! broken) && index == old(index) - removed && removed <= ids - broken
      ensures if ok then removed == ids else at in ids * broken && forall id :: id in ids ==> (id in removed <==> Before(old(index), id, at))
    {
      hide Before;
      var todo := ids;
      removed, at := {}, 0;
      while todo != {}
        invariant todo <= ids && removed == ids - todo && removed !! broken && index == old(index) - removed
        invariant forall a, b :: a in removed && b in todo ==> Before(old(index), a, b)
        decreases |todo|
      {
        var id := FindOldest(todo);
        OldestStays(old(index), index, todo);
        if id in broken {
          AllOlder(old(index), ids, todo, id);
          return false, removed, id;
        }
        OneRemoved(old(index), ids, todo, removed, id);
        index := index - {id};
        removed, todo := removed + {id}, todo - {id};
      }
      ok := true;
    }

    /** Deletes the objects of a plan: what has expired, then the rest, the one used longest ago first. */
    method RemoveEntries(ids: set<Id>, broken: set<Id>, now: int) returns (ok: bool, ghost removed: set<Id>, ghost at: Id)
      requires Valid() && ids <= index.Keys
      modifies `index
      ensures Valid() && ok == (ids !! broken) && index == old(index) - removed
      ensures if ok then removed == ids else StoppedAt(old(index), ids, removed, at, broken, now)
    {
      hide Fits, Bytes, Before, StoppedAt, Expired;
      var expired := Due(ids, now);
      ghost var x := index;
      ok, removed, at := RemoveAny(expired, broken);
      FewerFit(x, removed, quota, maxObjects);
      if !ok {
        StoppedEarly(x, ids, removed, at, broken, now);
        return;
      }
      OthersLeft(x, index, ids, expired);
      ghost var y := index;
      ghost var more: set<Id>;
      ok, more, at := RemoveInTurn(ids - expired, broken);
      RemovedTwice(x, ids, expired, more);
      removed := removed + more;
      FewerFit(x, removed, quota, maxObjects);
      if !ok {
        SameOrder(x, y, ids - expired, at);
        StoppedLate(x, ids, more, at, broken, now);
      }
    }

    /** Those of the objects that have expired. */
    method Due(ids: set<Id>, now: int) returns (due: set<Id>)
      requires ids <= index.Keys
      ensures due == ids * Expired(index, now)
    {
      due := set id | id in ids && index[id].expires <= now;
    }

    /** What a new object finds: a plan that makes room for it, if there is one. */
    ghost function PlanFor(x: Index, size: nat, now: int): Option<set<Id>>
      reads `quota
    {
      if size > quota then None else Planned(x, Need(size, 1, quota, maxObjects), now)
    }

    /** Admits one verified object. `written` and `saved` say whether the disk took the object and the index. */
    method Insert(
        id: Id, size: nat, pinned: bool, reserved: bool, expires: int, now: int, written: bool, broken: set<Id>,
        readable: set<Id>, saved: bool) returns (ok: bool)
      requires Valid() && size <= MaxBundleBytes
      modifies `index
      ensures Valid()
      ensures id !in old(index) && (PlanFor(old(index), size, now).None? || !written) ==> !ok && index == old(index)
      ensures id !in old(index) && PlanFor(old(index), size, now).Some? && written ==>
        var plan := PlanFor(old(index), size, now).value;
        if plan !! broken
        then ok == saved && index == (old(index) - plan)[id := Entry(size, pinned, reserved, now, expires)]
        else !ok && exists removed, at :: StoppedAt(old(index), plan, removed, at, broken, now) && index == old(index) - removed
      ensures id in old(index) && !reserved ==> ok && index == old(index)
      ensures id in old(index) ==> index.Keys == old(index).Keys && Reserved(old(index)) <= Reserved(index)
      ensures id in old(index) && reserved && Reserved(old(index)) + {id} <= readable ==>
        ok == (saved || old(index)[id].reserved)
        && index == if ok then Reserving(old(index), Reserved(old(index)) + {id}) else ReservingMore(old(index), Reserved(old(index)) + {id})
      ensures id in old(index) && reserved && !(Reserved(old(index)) + {id} <= readable) ==> !ok && index == old(index)
    {
      hide Fits;
      if id in index {
        if reserved {
          var ids := Reserved(index) + {id};
          AddReserved(index, id);
          ReservedFit(index, id, quota, maxObjects);
          ok := SetReservations(ids, |ids|, readable, saved);
          return;
        }
        return true;
      }
      if size > quota { return false; }
      var plan := Plan(Need(size, 1, quota, maxObjects), now);
      if plan.None? { return false; }
      PlanFits(index, Need(size, 1, quota, maxObjects), now);
      if !written { return false; }
      ghost var removed: set<Id>, at: Id;
      ok, removed, at := RemoveEntries(plan.value, broken, now);
      if !ok {
        assert StoppedAt(old(index), plan.value, removed, at, broken, now) && index == old(index) - removed;
        return;
      }
      Admitted(index, id, Entry(size, pinned, reserved, now, expires), quota, maxObjects);
      index := index[id := Entry(size, pinned, reserved, now, expires)];
      ok := saved;
    }

    method Changes(wanted: set<Id>) returns (changed: bool)
      requires wanted <= index.Keys
      ensures changed == (Reserved(index) != wanted)
      ensures !changed ==> Reserving(index, wanted) == index
    {
      changed := exists id :: id in index && index[id].reserved != (id in wanted);
    }

    method Mark(wanted: set<Id>)
      modifies `index
      ensures index == Reserving(old(index), wanted)
    {
      index := map id | id in index :: index[id].(reserved := id in wanted);
    }

    /** After a failed write: whatever was reserved before is reserved again. */
    method Unmark(previous: Index, wanted: set<Id>)
      requires index == Reserving(previous, wanted)
      modifies `index
      ensures index == ReservingMore(previous, wanted)
    {
      index := map id | id in index :: if previous[id].reserved then index[id].(reserved := true) else index[id];
    }

    lemma Limits()
      ensures Valid() <==> Fits(index, {}, Need(0, 0, quota, maxObjects))
    {
      hide Fits;
    }

    /** Makes exactly these objects reserved. `count` is the length of the list asked for, repeats included. */
    method SetReservations(wanted: set<Id>, count: nat, readable: set<Id>, saved: bool) returns (ok: bool)
      requires Valid()
      modifies `index
      ensures Valid() && index.Keys == old(index).Keys
      ensures count > maxObjects || !(wanted <= old(index).Keys * readable) ==> !ok && index == old(index)
      ensures count <= maxObjects && wanted <= old(index).Keys * readable ==>
        ok == (saved || Reserved(old(index)) == wanted)
        && index == if ok then Reserving(old(index), wanted) else ReservingMore(old(index), wanted)
    {
      hide Fits, Reserving, ReservingMore, Reserved, Bytes, Valid;
      Limits();
      if count > maxObjects { return false; }
      if !(wanted <= index.Keys * readable) { return false; }
      var previous := index;
      ReservingFits(previous, wanted, quota, maxObjects);
      var changed := Changes(wanted);
      if !changed { return true; }
      Mark(wanted);
      if !saved {
        Unmark(previous, wanted);
        Limits();
        return false;
      }
      Limits();
      ok := true;
    }

    method SetQuota(wanted: int, now: int, broken: set<Id>, saved: bool) returns (ok: bool)
      requires Valid()
      modifies `index, `quota
      ensures Valid()
      ensures !(1024 * 1024 <= wanted <= 1024 * 1024 * 1024) || Planned(old(index), Need(0, 0, wanted, maxObjects), now).None? ==>
        !ok && index == old(index) && quota == old(quota)
      ensures 1024 * 1024 <= wanted <= 1024 * 1024 * 1024 && Planned(old(index), Need(0, 0, wanted, maxObjects), now).Some? ==>
        var plan := Planned(old(index), Need(0, 0, wanted, maxObjects), now).value;
        if plan !! broken then ok == saved && quota == wanted && index == old(index) - plan
        else !ok && quota == old(quota)
             && exists removed, at :: StoppedAt(old(index), plan, removed, at, broken, now) && index == old(index) - removed
    {
      hide Fits;
      if wanted < 1024 * 1024 || wanted > MaxQuota { return false; }
      var plan := Plan(Need(0, 0, wanted, maxObjects), now);
      if plan.None? { return false; }
      PlanFits(index, Need(0, 0, wanted, maxObjects), now);
      ghost var removed: set<Id>, at: Id;
      ok, removed, at := RemoveEntries(plan.value, broken, now);
      if !ok {
        assert StoppedAt(old(index), plan.value, removed, at, broken, now) && index == old(index) - removed;
        return;
      }
      WithoutFits(index, Need(0, 0, wanted, maxObjects));
      quota := wanted;
      ok := saved;
    }
  }
}
