/** Cutting a packet into fragments and putting it together again. */
module Reassembly {
  import opened Common
  import opened Packets

  const MaxFragments := MaxPacketBytes / FragmentBytes
  const IdleLimit := 120_000
  const AgeLimit := 3_600_000

  datatype Part = Part(id: Id, index: nat, count: nat, data: seq<Byte>)

  /** `bytes` is the source's running total of the parts held. */
  datatype Assembly = Assembly(parts: map<nat, seq<Byte>>, count: nat, bytes: nat, since: int, updated: int)

  type Table = map<Id, Assembly>

  datatype Outcome =
    | Malformed                      // not a legal fragment
    | Refused                        // no room
    | Changed                        // contradicts an earlier fragment
    | Incomplete
    | Complete(encoded: seq<Byte>)

  // Fragments

  /** Where fragment `index` starts; the end of the packet for an index past the last. */
  function Offset(encoded: seq<Byte>, index: nat): (at: nat)
    ensures at <= |encoded|
  {
    Min(index * 2048, |encoded|)
  }

  function Fragment(encoded: seq<Byte>, index: nat): (f: seq<Byte>)
    requires index < FragmentCount(encoded)
    ensures 1 <= |f| <= FragmentBytes && (index < FragmentCount(encoded) - 1 ==> |f| == FragmentBytes)
    ensures |f| == Offset(encoded, index + 1) - Offset(encoded, index)
  {
    encoded[Offset(encoded, index)..Offset(encoded, index + 1)]
  }

  function PartOf(id: Id, encoded: seq<Byte>, index: nat): Part
    requires index < FragmentCount(encoded)
  {
    Part(id, index, FragmentCount(encoded), Fragment(encoded, index))
  }

  /** What the frame parser and the fragment decoder accept. */
  predicate WellFormed(p: Part) {
    && 1 <= p.count <= MaxFragments && p.index < p.count
    && 1 <= |p.data| <= FragmentBytes
    && (p.index < p.count - 1 ==> |p.data| == FragmentBytes)
  }

  // The table of packets being put together

  function PartSizes(parts: map<nat, seq<Byte>>): map<nat, nat> {
    map i | i in parts :: |parts[i]|
  }

  ghost predicate Sound(a: Assembly) {
    && (forall i :: i in a.parts ==> i < a.count)
    && a.bytes == Total(PartSizes(a.parts))
  }

  function AssemblySizes(t: Table): map<Id, nat> {
    map id | id in t :: t[id].bytes
  }

  ghost function TableBytes(t: Table): nat {
    Total(AssemblySizes(t))
  }

  ghost predicate Inv(t: Table) {
    && (forall id :: id in t ==> Sound(t[id]) && t[id].bytes <= MaxPacketBytes)
    && |t| <= MaxAssemblies && TableBytes(t) <= MaxPendingBytes
  }

  function Concat(parts: map<nat, seq<Byte>>, n: nat): seq<Byte>
    requires forall i :: 0 <= i < n ==> i in parts
  {
    if n == 0 then [] else Concat(parts, n - 1) + parts[n - 1]
  }

  function Opened(t: Table, p: Part, now: int): Assembly {
    if p.id in t then t[p.id] else Assembly(map[], p.count, 0, now, now)
  }

  function Added(a: Assembly, p: Part, now: int): Assembly {
    if p.index in a.parts then a
    else a.(parts := a.parts[p.index := p.data], bytes := a.bytes + |p.data|, updated := now)
  }

  predicate Contradicts(a: Assembly, p: Part) {
    p.count != a.count || (p.index in a.parts && a.parts[p.index] != p.data)
  }

  ghost predicate Overflows(t: Table, a: Assembly, p: Part) {
    p.index !in a.parts && (a.bytes + |p.data| > MaxPacketBytes || TableBytes(t) + |p.data| > MaxPendingBytes)
  }

  predicate Full(a: Assembly) {
    forall i :: 0 <= i < a.count ==> i in a.parts
  }

  /** The effect of one fragment of a packet that has not been seen yet. */
  ghost function Receive(t: Table, p: Part, now: int): (Table, Outcome) {
    if !WellFormed(p) then (t, Malformed)
    else if p.id !in t && |t| >= MaxAssemblies then (t, Refused)
    else
      var a := Opened(t, p, now);
      if Contradicts(a, p) then (t - {p.id}, Changed)
      else if Overflows(t, a, p) then (t - {p.id}, Refused)
      else
        var b := Added(a, p, now);
        if Full(b) then (t - {p.id}, Complete(Concat(b.parts, b.count)))
        else (t[p.id := b], Incomplete)
  }

  /** Assemblies that have been idle for two minutes, or open for an hour, are given up. */
  function Stale(t: Table, now: int): set<Id> {
    set id | id in t && (now - t[id].updated > IdleLimit || now - t[id].since > AgeLimit)
  }

  // Counting parts

  /** Indices below `n` that are `n` in number are all of them: the source compares counts only. */
  lemma {:induction false} CountedIsFull(indices: set<nat>, n: nat)
    requires forall i :: i in indices ==> i < n
    ensures |indices| <= n
    ensures |indices| == n <==> forall i :: 0 <= i < n ==> i in indices
    decreases n
  {
    if n == 0 {
      assert indices == {};
    } else if n - 1 in indices {
      var rest := indices - {n - 1};
      CountedIsFull(rest, n - 1);
      assert forall i :: 0 <= i < n - 1 ==> (i in indices <==> i in rest);
    } else {
      CountedIsFull(indices, n - 1);
    }
  }

  lemma PartCountIsFull(a: Assembly)
    requires Sound(a)
    ensures |a.parts| == a.count <==> Full(a)
  {
    CountedIsFull(a.parts.Keys, a.count);
    assert |a.parts| == |a.parts.Keys|;
  }

  // The table invariant

  lemma TableRemove(t: Table, id: Id)
    requires id in t
    ensures TableBytes(t) == t[id].bytes + TableBytes(t - {id})
  {
    TotalRemove(AssemblySizes(t), id);
    assert AssemblySizes(t) - {id} == AssemblySizes(t - {id});
  }

  lemma TableInsert(t: Table, id: Id, a: Assembly)
    requires id !in t
    ensures TableBytes(t[id := a]) == TableBytes(t) + a.bytes
  {
    TotalInsert(AssemblySizes(t), id, a.bytes);
    assert AssemblySizes(t[id := a]) == AssemblySizes(t)[id := a.bytes];
  }

  lemma TableReplace(t: Table, id: Id, a: Assembly)
    requires id in t
    ensures TableBytes(t[id := a]) == TableBytes(t) - t[id].bytes + a.bytes
  {
    TableRemove(t, id);
    TableInsert(t - {id}, id, a);
    assert (t - {id})[id := a] == t[id := a];
  }

  lemma DiscardKeepsInv(t: Table, id: Id)
    requires Inv(t)
    ensures Inv(t - {id})
  {
    if id in t {
      TableRemove(t, id);
      assert (t - {id}).Keys == t.Keys - {id};
    } else {
      assert t - {id} == t;
    }
  }

  lemma EmptyAssemblyIsSound(count: nat, now: int)
    ensures Sound(Assembly(map[], count, 0, now, now))
  {
    assert PartSizes(map[]) == map[];
  }

  lemma AddedIsSound(a: Assembly, p: Part, now: int)
    requires Sound(a) && p.index < a.count
    ensures Sound(Added(a, p, now))
  {
    if p.index !in a.parts {
      TotalInsert(PartSizes(a.parts), p.index, |p.data|);
      assert PartSizes(a.parts[p.index := p.data]) == PartSizes(a.parts)[p.index := |p.data|];
    }
  }

  lemma OpenedIsSound(t: Table, p: Part, now: int)
    requires Inv(t)
    ensures Sound(Opened(t, p, now))
  {
    EmptyAssemblyIsSound(p.count, now);
  }

  lemma WellFormedIndex(p: Part)
    requires WellFormed(p)
    ensures p.index < p.count
  {
  }

  lemma TablePut(t: Table, id: Id, a: Assembly)
    ensures TableBytes(t[id := a]) == TableBytes(t) - (if id in t then t[id].bytes else 0) + a.bytes
  {
    hide TableBytes;
    if id in t {
      TableReplace(t, id, a);
    } else {
      TableInsert(t, id, a);
    }
  }

  lemma PutKeepsInv(t: Table, id: Id, b: Assembly)
    requires Inv(t) && Sound(b) && b.bytes <= MaxPacketBytes
    requires id !in t ==> |t| < MaxAssemblies && TableBytes(t) + b.bytes <= MaxPendingBytes
    requires id in t ==> TableBytes(t) - t[id].bytes + b.bytes <= MaxPendingBytes
    ensures Inv(t[id := b])
  {
    if id in t {
      TableReplace(t, id, b);
      assert t[id := b].Keys == t.Keys;
    } else {
      TableInsert(t, id, b);
      assert t[id := b].Keys == t.Keys + {id};
    }
  }

  lemma AddedFits(t: Table, p: Part, now: int)
    requires Inv(t) && !Overflows(t, Opened(t, p, now), p)
    ensures var b := Added(Opened(t, p, now), p, now); b.bytes <= MaxPacketBytes
    ensures var b := Added(Opened(t, p, now), p, now);
      TableBytes(t) - (if p.id in t then t[p.id].bytes else 0) + b.bytes <= MaxPendingBytes
  {
    hide Sound, TableBytes;
  }

  lemma ReceiveKeepsInv(t: Table, p: Part, now: int)
    requires Inv(t)
    ensures Inv(Receive(t, p, now).0)
  {
    hide Sound, TableBytes, Full, Concat, Overflows, Added;
    DiscardKeepsInv(t, p.id);
    OpenedIsSound(t, p, now);
    var a := Opened(t, p, now);
    if WellFormed(p) && (p.id in t || |t| < MaxAssemblies) && !Contradicts(a, p) && !Overflows(t, a, p) {
      AddedIsSound(a, p, now);
      AddedFits(t, p, now);
      PutKeepsInv(t, p.id, Added(a, p, now));
    }
  }
}
