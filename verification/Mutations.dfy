/** Edits and deletions of one object, merged as they arrive. */
module Mutations {
  import opened Common
  import opened Texts

  datatype Event = Event(id: Id, created: int, deletes: bool, text: Text)

  datatype Mutation = Mutation(author: Id, expires: int, created: int, eventId: Id, deleted: bool, text: Option<Text>)

  datatype Target = Target(id: Id, author: Id, expires: int)

  predicate Newer(created: int, id: Id, than: int, thanId: Id) {
    created > than || (created == than && id > thanId)
  }

  predicate Before(a: Event, b: Event) {
    Newer(b.created, b.id, a.created, a.id)
  }

  /** An event no newer than the last one counts only when it is the first deletion. */
  predicate Accepts(m: Option<Mutation>, e: Event) {
    m.None? || Newer(e.created, e.id, m.value.created, m.value.eventId) || (e.deletes && !m.value.deleted)
  }

  function Merge(m: Option<Mutation>, t: Target, e: Event): Option<Mutation> {
    if !Accepts(m, e) then m
    else
      var deleted := (m.Some? && m.value.deleted) || e.deletes;
      Some(Mutation(t.author, t.expires, e.created, e.id, deleted, if deleted then None else Some(e.text)))
  }

  class Table {
    var mutations: map<Id, Mutation>

    constructor ()
      ensures mutations == map[]
    {
      mutations := map[];
    }

    method Record(t: Target, e: Event) returns (changed: bool)
      modifies this
      ensures var before := if t.id in old(mutations) then Some(old(mutations)[t.id]) else None;
        changed == Accepts(before, e)
        && mutations == if changed then old(mutations)[t.id := Merge(before, t, e).value] else old(mutations)
    {
      var known := t.id in mutations;
      var created, eventId, deleted := 0, 0, false;
      if known {
        var before := mutations[t.id];
        created, eventId, deleted := before.created, before.eventId, before.deleted;
        if e.created < created && (!e.deletes || deleted) { return false; }
        if e.created == created && e.id <= eventId && (!e.deletes || deleted) { return false; }
      }
      var gone := deleted || e.deletes;
      mutations := mutations[t.id := Mutation(t.author, t.expires, e.created, e.id, gone, if gone then None else Some(e.text))];
      changed := true;
    }
  }

  function MergeAll(t: Target, events: seq<Event>): Option<Mutation> {
    if events == [] then None else Merge(MergeAll(t, events[..|events| - 1]), t, events[|events| - 1])
  }

  function Elements(events: seq<Event>): set<Event> {
    set i | 0 <= i < |events| :: events[i]
  }

  /** An identifier names one event. */
  predicate Consistent(s: set<Event>) {
    forall a, b :: a in s && b in s && a.id == b.id ==> a == b
  }

  ghost predicate IsLatest(s: set<Event>, e: Event) {
    e in s && forall other :: other in s && other != e ==> Before(other, e)
  }

  predicate AnyDeletes(s: set<Event>) {
    exists e :: e in s && e.deletes
  }

  lemma {:induction false} LatestExists(s: set<Event>) returns (e: Event)
    requires s != {} && Consistent(s)
    ensures IsLatest(s, e)
    decreases |s|
  {
    var x :| x in s;
    if s == {x} {
      e := x;
    } else {
      var y := LatestExists(s - {x});
      e := if Before(y, x) then x else y;
      assert x != y && x.id != y.id;
      forall other | other in s && other != e ensures Before(other, e) {
        if other != x && other != y { assert Before(other, y); }
      }
    }
  }

  /** What a reader is shown. */
  datatype Shown = Unchanged | Gone | Edited(text: Text)

  function Show(m: Option<Mutation>): Shown {
    match m
    case None => Unchanged
    case Some(v) => if v.deleted then Gone else if v.text.Some? then Edited(v.text.value) else Unchanged
  }

  /** What the events say, in no particular order. */
  ghost predicate Says(s: set<Event>, shown: Shown) {
    if AnyDeletes(s) then shown == Gone
    else exists e :: IsLatest(s, e) && shown == Edited(e.text)
  }

  /** The state after a sequence of events, as far as it follows from their set. */
  ghost predicate Reached(t: Target, s: set<Event>, m: Mutation) {
    && m.author == t.author && m.expires == t.expires && m.deleted == AnyDeletes(s) && (m.deleted ==> m.text.None?)
    && (exists e :: e in s && m.created == e.created && m.eventId == e.id)
    && (!m.deleted ==> exists e :: IsLatest(s, e) && m.created == e.created && m.eventId == e.id && m.text == Some(e.text))
  }

  lemma ElementsStep(events: seq<Event>)
    requires events != []
    ensures Elements(events) == Elements(events[..|events| - 1]) + {events[|events| - 1]}
  {
  }

  lemma {:induction false} MergeReaches(t: Target, events: seq<Event>)
    requires events != [] && Consistent(Elements(events))
    ensures MergeAll(t, events).Some? && Reached(t, Elements(events), MergeAll(t, events).value)
    decreases |events|
  {
    var early, e := events[..|events| - 1], events[|events| - 1];
    ElementsStep(events);
    if early == [] {
      assert Elements(early) == {};
      assert IsLatest(Elements(events), e);
    } else {
      MergeReaches(t, early);
      ReachedStep(t, Elements(early), MergeAll(t, early).value, e);
    }
  }

  lemma ReachedStep(t: Target, s: set<Event>, m: Mutation, e: Event)
    requires Reached(t, s, m) && Consistent(s + {e})
    ensures Merge(Some(m), t, e).Some? && Reached(t, s + {e}, Merge(Some(m), t, e).value)
  {
    var all, next := s + {e}, Merge(Some(m), t, e).value;
    assert AnyDeletes(all) == (AnyDeletes(s) || e.deletes) by {
      if AnyDeletes(s) { var d :| d in s && d.deletes; assert d in all; }
      if e.deletes { assert e in all; }
    }
    if Accepts(Some(m), e) {
      assert e in all && next.created == e.created && next.eventId == e.id;
      if !next.deleted {
        var last :| IsLatest(s, last) && m.created == last.created && m.eventId == last.id && m.text == Some(last.text);
        assert IsLatest(all, e);
      }
    } else {
      var known :| known in s && m.created == known.created && m.eventId == known.id;
      assert known in all;
      if !m.deleted {
        var last :| IsLatest(s, last) && m.created == last.created && m.eventId == last.id && m.text == Some(last.text);
        assert IsLatest(all, last);
      }
    }
  }

  /** Whatever order events arrive in, and however often, readers are shown the same: gone if any of them deletes,
      and otherwise the text of the latest. */
  lemma DisplayConverges(t: Target, events: seq<Event>)
    requires events != [] && Consistent(Elements(events))
    ensures Says(Elements(events), Show(MergeAll(t, events)))
  {
    MergeReaches(t, events);
  }

  /** The same in terms of what arrived: the text shown is that of an event with the greatest time of creation,
      and of those the one with the greatest identifier. */
  lemma ShownExactly(t: Target, events: seq<Event>)
    requires events != [] && forall a, b :: a in events && b in events && a.id == b.id ==> a == b
    ensures (exists e :: e in events && e.deletes) ==> Show(MergeAll(t, events)) == Gone
    ensures (forall e :: e in events ==> !e.deletes) ==> exists e :: (
      e in events && Show(MergeAll(t, events)) == Edited(e.text)
      && forall other :: other in events ==> other.created < e.created || (other.created == e.created && other.id <= e.id))
  {
    hide MergeAll, Show;
    assert forall e :: e in events <==> e in Elements(events);
    DisplayConverges(t, events);
    if forall e :: e in events ==> !e.deletes {
      var e :| IsLatest(Elements(events), e) && Show(MergeAll(t, events)) == Edited(e.text);
      assert e in events;
    }
  }

  lemma SaysOneThing(s: set<Event>, a: Shown, b: Shown)
    requires Says(s, a) && Says(s, b)
    ensures a == b
  {
    if !AnyDeletes(s) {
      var x :| IsLatest(s, x) && a == Edited(x.text);
      var y :| IsLatest(s, y) && b == Edited(y.text);
      OneLatest(s, x, y);
    }
  }

  lemma OneLatest(s: set<Event>, x: Event, y: Event)
    requires IsLatest(s, x) && IsLatest(s, y)
    ensures x == y
  {
    assert x != y ==> Before(x, y) && Before(y, x);
  }

  /** So two devices that have seen the same events show the same. */
  lemma ShownAlike(t: Target, a: seq<Event>, b: seq<Event>)
    requires a != [] && Elements(a) == Elements(b) && Consistent(Elements(a))
    ensures Show(MergeAll(t, a)) == Show(MergeAll(t, b))
  {
    hide Show, MergeAll, Says, Consistent;
    ElementsStep(a);
    SomeElements(b);
    DisplayConverges(t, a);
    DisplayConverges(t, b);
    SaysOneThing(Elements(a), Show(MergeAll(t, a)), Show(MergeAll(t, b)));
  }

  // What is stored besides

  /** No deletion, or a deletion that is the latest event. */
  ghost predicate Settled(s: set<Event>) {
    AnyDeletes(s) ==> exists e :: IsLatest(s, e) && e.deletes
  }

  /** Once deleted, what is stored is the latest of the first deletion and everything after it. */
  lemma {:induction false} LatestDeletionStays(t: Target, events: seq<Event>, last: Event)
    requires events != [] && Consistent(Elements(events)) && IsLatest(Elements(events), last) && last.deletes
    ensures MergeAll(t, events) == Some(Mutation(t.author, t.expires, last.created, last.id, true, None))
    decreases |events|
  {
    var early, e := events[..|events| - 1], events[|events| - 1];
    ElementsStep(events);
    if last in Elements(early) {
      LatestDeletionStays(t, early, last);
    } else if early != [] {
      MergeReaches(t, early);
    }
  }

  /** Where the events are settled, everything stored is the same in every order. */
  lemma SettledConverges(t: Target, a: seq<Event>, b: seq<Event>)
    requires a != [] && Elements(a) == Elements(b) && Consistent(Elements(a)) && Settled(Elements(a))
    ensures MergeAll(t, a) == MergeAll(t, b)
  {
    assert a[0] in Elements(b);
    if AnyDeletes(Elements(a)) {
      var e :| IsLatest(Elements(a), e) && e.deletes;
      LatestDeletionStays(t, a, e);
      LatestDeletionStays(t, b, e);
    } else {
      MergeReaches(t, a);
      MergeReaches(t, b);
      var x :| IsLatest(Elements(a), x) && MergeAll(t, a).value.created == x.created && MergeAll(t, a).value.eventId == x.id
               && MergeAll(t, a).value.text == Some(x.text);
      var y :| IsLatest(Elements(b), y) && MergeAll(t, b).value.created == y.created && MergeAll(t, b).value.eventId == y.id
               && MergeAll(t, b).value.text == Some(y.text);
      OneLatest(Elements(a), x, y);
    }
  }

  lemma {:induction false} Listed(s: set<Event>) returns (events: seq<Event>)
    ensures Elements(events) == s && |events| == |s|
    decreases |s|
  {
    if s == {} {
      events := [];
    } else {
      var e :| e in s;
      var rest := Listed(s - {e});
      events := rest + [e];
      ElementsStep(events);
      assert events[..|events| - 1] == rest;
    }
  }

  /** Where they are not, two orders store different things. */
  lemma UnsettledDiverges(t: Target, s: set<Event>) returns (a: seq<Event>, b: seq<Event>)
    requires Consistent(s) && !Settled(s)
    ensures Elements(a) == s && Elements(b) == s && MergeAll(t, a) != MergeAll(t, b)
  {
    var d, last := Unsettled(s);
    var rest := Listed(s - {last});
    a, b := rest + [last], [last] + rest;
    hide Elements, MergeAll, Consistent, IsLatest;
    BothOrders(s, last, rest, a, b);
    AddingLatest(t, rest, last);
    EarlyIsForgotten(t, last, rest, d);
  }

  lemma Unsettled(s: set<Event>) returns (d: Event, last: Event)
    requires Consistent(s) && !Settled(s)
    ensures d in s && d.deletes && IsLatest(s, last) && !last.deletes && d != last && s != {}
  {
    d :| d in s && d.deletes;
    last := LatestExists(s);
  }

  lemma BothOrders(s: set<Event>, last: Event, rest: seq<Event>, a: seq<Event>, b: seq<Event>)
    requires Consistent(s) && IsLatest(s, last) && Elements(rest) == s - {last} && a == rest + [last] && b == [last] + rest
    requires exists d :: d in s && d != last
    ensures Elements(a) == s && Elements(b) == s && rest != []
    ensures Consistent(Elements(rest)) && Consistent({last} + Elements(rest)) && last !in Elements(rest)
    ensures forall e :: e in Elements(rest) ==> Before(e, last)
  {
    hide Before;
    ElementsStep(a);
    assert a[..|a| - 1] == rest;
    FrontElements(last, rest);
    assert {last} + Elements(rest) == s;
    var d :| d in s && d != last;
    RestNotEmpty(rest, d);
  }

  lemma FrontElements(e: Event, rest: seq<Event>)
    ensures Elements([e] + rest) == {e} + Elements(rest)
  {
    var all := [e] + rest;
    forall x | x in Elements(rest) ensures x in Elements(all) {
      var i :| 0 <= i < |rest| && rest[i] == x;
      assert all[i + 1] == x;
    }
    assert all[0] == e;
  }

  lemma AddingLatest(t: Target, rest: seq<Event>, last: Event)
    requires rest != [] && Consistent(Elements(rest)) && forall e :: e in Elements(rest) ==> Before(e, last)
    ensures MergeAll(t, rest + [last]).Some? && MergeAll(t, rest + [last]).value.eventId == last.id
  {
    var all := rest + [last];
    assert all[..|all| - 1] == rest;
    MergeReaches(t, rest);
  }

  /** An edit that came before the first deletion leaves no trace, however late it was created. */
  lemma {:induction false} EarlyIsForgotten(t: Target, first: Event, rest: seq<Event>, d: Event)
    requires !first.deletes && d in Elements(rest) && d.deletes && Consistent({first} + Elements(rest)) && first !in Elements(rest)
    ensures MergeAll(t, [first] + rest).Some? && MergeAll(t, [first] + rest).value.deleted
    ensures exists e :: e in Elements(rest) && MergeAll(t, [first] + rest).value.eventId == e.id
    ensures MergeAll(t, [first] + rest).value.eventId != first.id
    decreases |rest|
  {
    hide Elements;
    RestNotEmpty(rest, d);
    var all := [first] + rest;
    var early, e := rest[..|rest| - 1], rest[|rest| - 1];
    assert all[..|all| - 1] == [first] + early && all[|all| - 1] == e;
    ElementsStep(rest);
    FrontElements(first, early);
    assert e in Elements(rest) && Elements(early) <= Elements(rest);
    if x :| x in Elements(early) && x.deletes {
      EarlyIsForgotten(t, first, early, x);
    } else {
      FewerConsistent({first} + Elements(rest), {first} + Elements(early));
      MergeReaches(t, [first] + early);
      NoneDeletes(first, Elements(early));
      assert e.deletes;
    }
    assert forall x :: x in Elements(rest) ==> x.id != first.id;
  }

  lemma RestNotEmpty(rest: seq<Event>, d: Event)
    requires d in Elements(rest)
    ensures rest != []
  {
  }

  lemma FewerConsistent(s: set<Event>, r: set<Event>)
    requires Consistent(s) && r <= s
    ensures Consistent(r)
  {
  }

  lemma NoneDeletes(first: Event, s: set<Event>)
    requires !first.deletes && forall x :: x in s ==> !x.deletes
    ensures !AnyDeletes({first} + s)
  {
  }

  /** What is stored depends only on which events arrived, exactly when none deletes or the latest one does. */
  lemma ConvergesExactly(t: Target, s: set<Event>)
    requires s != {} && Consistent(s)
    ensures Settled(s) <==> forall a, b :: Elements(a) == s && Elements(b) == s ==> MergeAll(t, a) == MergeAll(t, b)
  {
    hide MergeAll, Settled, Elements;
    if Settled(s) {
      forall a, b | Elements(a) == s && Elements(b) == s ensures MergeAll(t, a) == MergeAll(t, b) {
        SomeElements(a);
        SettledConverges(t, a, b);
      }
    } else {
      var a, b := UnsettledDiverges(t, s);
    }
  }

  lemma SomeElements(a: seq<Event>)
    requires Elements(a) != {}
    ensures a != []
  {
  }
}
