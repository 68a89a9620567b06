// The in-memory packet storage (mqtt/storage/memory/memory.go): an ordered list of entries with distinct identifiers,
// refining a finite map with insertion order.
module MemoryStorage {
  import opened Bits

  datatype Entry<+P> = Entry(id: uint16, packet: P)

  datatype Answer<+P> = Found(packet: P) | ErrNoEntry

  datatype Result = Ok | ErrDuplicateEntry | ErrNoSuchEntry

  // The position of the first entry with an identifier, or the length of the list.
  function IndexOf<P>(s: seq<Entry<P>>, id: uint16): (i: nat)
    ensures i <= |s|
    ensures i < |s| ==> s[i].id == id
    ensures forall j :: 0 <= j < i ==> s[j].id != id
  {
    if s == [] || s[0].id == id then 0 else 1 + IndexOf(s[1..], id)
  }

  predicate Holds<P>(s: seq<Entry<P>>, id: uint16) {
    IndexOf(s, id) < |s|
  }

  predicate Distinct<P>(s: seq<Entry<P>>) {
    forall i, j :: 0 <= i < j < |s| ==> s[i].id != s[j].id
  }

  function StoreIn<P>(s: seq<Entry<P>>, id: uint16, packet: P): seq<Entry<P>> {
    if Holds(s, id) then s else s + [Entry(id, packet)]
  }

  function DropFrom<P>(s: seq<Entry<P>>, id: uint16): seq<Entry<P>> {
    var i := IndexOf(s, id);
    if i < |s| then s[..i] + s[i + 1..] else s
  }

  function GetFrom<P>(s: seq<Entry<P>>, id: uint16): Answer<P> {
    var i := IndexOf(s, id);
    if i < |s| then Found(s[i].packet) else ErrNoEntry
  }

  class Storage<P> {
    var store: seq<Entry<P>>

    constructor ()
      ensures store == []
    {
      store := [];
    }

    method Store(identifier: uint16, packet: P) returns (r: Result)
      modifies this
      ensures r == if Holds(old(store), identifier) then ErrDuplicateEntry else Ok
      ensures store == StoreIn(old(store), identifier, packet)
    {
      for i := 0 to |store|
        invariant store == old(store)
        invariant i <= IndexOf(store, identifier)
      {
        if store[i].id == identifier {
          return ErrDuplicateEntry;
        }
      }
      store := store + [Entry(identifier, packet)];
      return Ok;
    }

    method Get(identifier: uint16) returns (r: Answer<P>)
      ensures r == GetFrom(store, identifier)
    {
      for i := 0 to |store|
        invariant i <= IndexOf(store, identifier)
      {
        if store[i].id == identifier {
          return Found(store[i].packet);
        }
      }
      return ErrNoEntry;
    }

    method Drop(identifier: uint16) returns (r: Result)
      modifies this
      ensures r == if Holds(old(store), identifier) then Ok else ErrNoSuchEntry
      ensures store == DropFrom(old(store), identifier)
    {
      for i := 0 to |store|
        invariant store == old(store)
        invariant i <= IndexOf(store, identifier)
      {
        if store[i].id == identifier {
          store := store[..i] + store[i + 1..];
          return Ok;
        }
      }
      return ErrNoSuchEntry;
    }
  }

  // ---------- Refinement of a map with insertion order ----------

  function MapOf<P>(s: seq<Entry<P>>): map<uint16, P> {
    if s == [] then map[] else MapOf(s[..|s| - 1])[s[|s| - 1].id := s[|s| - 1].packet]
  }

  function Ids<P>(s: seq<Entry<P>>): seq<uint16> {
    seq(|s|, i requires 0 <= i < |s| => s[i].id)
  }

  function Without(ids: seq<uint16>, id: uint16): seq<uint16> {
    if ids == [] then []
    else Without(ids[..|ids| - 1], id) + if ids[|ids| - 1] == id then [] else [ids[|ids| - 1]]
  }

  datatype Op<+P> = StoreOp(id: uint16, packet: P) | DropOp(id: uint16)

  function Exec<P>(s: seq<Entry<P>>, op: Op<P>): seq<Entry<P>> {
    match op
    case StoreOp(id, packet) => StoreIn(s, id, packet)
    case DropOp(id) => DropFrom(s, id)
  }

  // The reference: a map, and its keys in insertion order.
  datatype Reference<P> = Reference(entries: map<uint16, P>, order: seq<uint16>)

  function ExecReference<P>(r: Reference<P>, op: Op<P>): Reference<P> {
    match op
    case StoreOp(id, packet) =>
      if id in r.entries then r else Reference(r.entries[id := packet], r.order + [id])
    case DropOp(id) => Reference(r.entries - {id}, Without(r.order, id))
  }

  function Run<P>(s: seq<Entry<P>>, ops: seq<Op<P>>): seq<Entry<P>> {
    if ops == [] then s else Exec(Run(s, ops[..|ops| - 1]), ops[|ops| - 1])
  }

  function RunReference<P>(r: Reference<P>, ops: seq<Op<P>>): Reference<P> {
    if ops == [] then r else ExecReference(RunReference(r, ops[..|ops| - 1]), ops[|ops| - 1])
  }

  function Abstract<P>(s: seq<Entry<P>>): Reference<P> {
    Reference(MapOf(s), Ids(s))
  }

  // With distinct identifiers, the map holds exactly what Get finds.
  lemma {:induction false} GetIsLookup<P>(s: seq<Entry<P>>, id: uint16)
    requires Distinct(s)
    ensures Holds(s, id) <==> id in MapOf(s)
    ensures GetFrom(s, id) == if id in MapOf(s) then Found(MapOf(s)[id]) else ErrNoEntry
  {
    if s != [] {
      var front, last := s[..|s| - 1], s[|s| - 1];
      GetIsLookup(front, id);
      var i := IndexOf(front, id);
      IndexOfSnoc(front, last, id);
      assert s == front + [last];
    }
  }

  lemma IndexOfSnoc<P>(s: seq<Entry<P>>, e: Entry<P>, id: uint16)
    ensures IndexOf(s + [e], id) == if Holds(s, id) || e.id == id then IndexOf(s, id) else |s| + 1
  {
    var i := IndexOf(s, id);
    assert forall k :: 0 <= k < |s| ==> (s + [e])[k] == s[k];
    if i < |s| {
      assert (s + [e])[i].id == id;
    } else {
      assert (s + [e])[|s|] == e;
    }
  }

  lemma {:induction false} WithoutAbsent(ids: seq<uint16>, id: uint16)
    requires forall k :: 0 <= k < |ids| ==> ids[k] != id
    ensures Without(ids, id) == ids
  {
    if ids != [] {
      WithoutAbsent(ids[..|ids| - 1], id);
    }
  }

  lemma IdsSnoc<P>(s: seq<Entry<P>>, e: Entry<P>)
    ensures Ids(s + [e]) == Ids(s) + [e.id]
    ensures MapOf(s + [e]) == MapOf(s)[e.id := e.packet]
  {
    assert (s + [e])[..|s|] == s;
  }

  lemma WithoutSnoc(ids: seq<uint16>, x: uint16, id: uint16)
    ensures Without(ids + [x], id) == Without(ids, id) + if x == id then [] else [x]
  {
    assert (ids + [x])[..|ids|] == ids;
  }

  // Dropping from a list that ends in e.
  lemma DropSnoc<P>(s: seq<Entry<P>>, e: Entry<P>, id: uint16)
    requires Distinct(s + [e])
    ensures Distinct(s)
    ensures DropFrom(s + [e], id) == if e.id == id then s else DropFrom(s, id) + [e]
    ensures e.id == id ==> !Holds(s, id)
  {
    IndexOfSnoc(s, e, id);
    var i := IndexOf(s, id);
    assert forall k :: 0 <= k < |s| ==> (s + [e])[k] == s[k];
    assert (s + [e])[|s|] == e;
  }

  lemma {:induction false} DropIsRemoval<P>(s: seq<Entry<P>>, id: uint16)
    requires Distinct(s)
    ensures MapOf(DropFrom(s, id)) == MapOf(s) - {id}
    ensures Ids(DropFrom(s, id)) == Without(Ids(s), id)
  {
    hide DropFrom;
    if s == [] {
      assert DropFrom<P>([], id) == [] by { DropEmpty<P>(id); }
    } else {
      hide Ids;
      hide Without;
      hide MapOf;
      hide Distinct;
      var front, e := s[..|s| - 1], s[|s| - 1];
      assert s == front + [e];
      DropSnoc(front, e, id);
      IdsSnoc(front, e);
      hide IndexOf;
      RemoveUpdated(MapOf(front), e.id, e.packet, id);
      WithoutSnoc(Ids(front), e.id, id);
      if e.id == id {
        AbsentId(front, id);
        GetIsLookup(front, id);
      } else {
        DropIsRemoval(front, id);
        IdsSnoc(DropFrom(front, id), e);
      }
    }
  }

  lemma RemoveUpdated<P>(m: map<uint16, P>, k: uint16, v: P, id: uint16)
    ensures k != id ==> m[k := v] - {id} == (m - {id})[k := v]
    ensures k == id && id !in m ==> m[k := v] - {id} == m
  {
  }

  lemma AbsentId<P>(s: seq<Entry<P>>, id: uint16)
    requires !Holds(s, id)
    ensures Without(Ids(s), id) == Ids(s)
  {
    WithoutAbsent(Ids(s), id);
  }

  lemma DropEmpty<P>(id: uint16)
    ensures DropFrom<P>([], id) == []
  {
  }

  // One operation keeps the identifiers distinct and does to the map, and to its insertion order, what its name says;
  // a Store of a present identifier and a Drop of an absent one change nothing.
  lemma ExecRefines<P>(s: seq<Entry<P>>, op: Op<P>)
    requires Distinct(s)
    ensures Distinct(Exec(s, op))
    ensures Abstract(Exec(s, op)) == ExecReference(Abstract(s), op)
    ensures (op.StoreOp? && Holds(s, op.id)) || (op.DropOp? && !Holds(s, op.id)) ==> Exec(s, op) == s
  {
    GetIsLookup(s, op.id);
    match op
    case StoreOp(id, packet) =>
      if !Holds(s, id) {
        var s' := s + [Entry(id, packet)];
        assert s'[..|s|] == s;
        assert Ids(s') == Ids(s) + [id];
      }
    case DropOp(id) =>
      DropIsRemoval(s, id);
  }

  // Over any run of operations from the empty storage the identifiers stay distinct, the list is the map and its
  // insertion order, and Get agrees with the map.
  lemma {:induction false} RunRefines<P>(ops: seq<Op<P>>, id: uint16)
    ensures Distinct(Run([], ops))
    ensures Abstract(Run([], ops)) == RunReference(Reference(map[], []), ops)
    ensures var m := RunReference<P>(Reference(map[], []), ops).entries;
      GetFrom(Run([], ops), id) == if id in m then Found(m[id]) else ErrNoEntry
  {
    if ops != [] {
      RunRefines(ops[..|ops| - 1], id);
      ExecRefines(Run([], ops[..|ops| - 1]), ops[|ops| - 1]);
    }
    GetIsLookup(Run([], ops), id);
  }

  lemma IndexOfEntry<P>(s: seq<Entry<P>>, e: Entry<P>)
    requires Distinct(s) && e in s
    ensures Holds(s, e.id) && s[IndexOf(s, e.id)] == e
  {
    var i :| 0 <= i < |s| && s[i] == e;
    assert s[i].id == e.id;
  }

  lemma DropDistinct<P>(s: seq<Entry<P>>, id: uint16)
    requires Distinct(s)
    ensures Distinct(DropFrom(s, id)) && !Holds(DropFrom(s, id), id)
  {
    var i, d := IndexOf(s, id), DropFrom(s, id);
    if i < |s| {
      assert forall k :: 0 <= k < |d| ==> d[k] == s[if k < i then k else k + 1];
      assert forall k :: 0 <= k < |d| ==> d[k].id != id;
    }
  }

  // Dropping a stored entry by its identifier removes exactly that entry.
  lemma DropRemoves<P>(s: seq<Entry<P>>, e: Entry<P>)
    requires Distinct(s) && e in s
    ensures Holds(s, e.id) && Distinct(DropFrom(s, e.id)) && !Holds(DropFrom(s, e.id), e.id)
    ensures multiset(DropFrom(s, e.id)) == multiset(s) - multiset{e}
  {
    IndexOfEntry(s, e);
    DropDistinct(s, e.id);
    hide IndexOf;
    hide Distinct;
    var i := IndexOf(s, e.id);
    assert s == s[..i] + [e] + s[i + 1..];
  }

  // Storing under an absent identifier adds exactly that entry.
  lemma StoreAdds<P>(s: seq<Entry<P>>, e: Entry<P>)
    requires Distinct(s) && !Holds(s, e.id)
    ensures Distinct(StoreIn(s, e.id, e.packet))
    ensures multiset(StoreIn(s, e.id, e.packet)) == multiset(s) + multiset{e}
  {
    assert e == Entry(e.id, e.packet);
  }
}
