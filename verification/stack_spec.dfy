/** The notification stack's record store as values: what adding and
    removing a notification do to the map from notification id to record,
    and the invariants those steps keep. The bar's methods are proved to
    perform exactly these steps. */
module StackSpec {
  import opened NotifyServer
  import opened Notify
  import Config

  type Records = map<nat, Info>

  /** Every record sits at the offset its stack position dictates. */
  ghost predicate OffsetLaw(n: Records) {
    forall id :: id in n ==> n[id].upper == Config.UpperFor(n[id].counter)
  }

  /** Every record is filed under its own notification id. */
  ghost predicate KeyedById(n: Records) {
    forall id :: id in n ==> n[id].unit.id == id
  }

  /** The ids of the records not marked for deletion. */
  function LiveIds(n: Records): (s: set<nat>)
    ensures forall id :: id in s <==> id in n && !n[id].toDelete
  {
    set id | id in n && !n[id].toDelete
  }

  /** The live records hold the stack positions 0 .. (live count - 1), one each. */
  ghost predicate Contiguous(n: Records) {
    (forall id :: id in LiveIds(n) ==> n[id].counter < |LiveIds(n)|) &&
    (forall a, b :: a in LiveIds(n) && b in LiveIds(n) && a != b ==> n[a].counter != n[b].counter)
  }

  /** One position further down the stack. */
  function Bump(r: Info): Info {
    r.(counter := r.counter + 1, upper := r.upper + Config.UnitMargin)
  }

  /** One position further up the stack. */
  function Lift(r: Info): Info
    requires r.counter > 0
  {
    r.(counter := r.counter - 1, upper := r.upper - Config.UnitMargin)
  }

  /** Every record moved one position down. */
  function Bumped(n: Records): (m: Records)
    ensures m.Keys == n.Keys
  {
    map id | id in n :: Bump(n[id])
  }

  /** The records above position `k` moved one position up. */
  function ShiftedAbove(n: Records, k: nat): (m: Records)
    ensures m.Keys == n.Keys
  {
    map id | id in n :: if n[id].counter > k then Lift(n[id]) else n[id]
  }

  /** The record store after the `UnitAdd` arm: a known id only gets its
      unit replaced; a new one pushes every record down and lands on top. */
  function Added(n: Records, unit: NotifyUnit): (m: Records)
    ensures m.Keys == n.Keys + {unit.id}
  {
    if unit.id in n then n[unit.id := n[unit.id].(unit := unit)]
    else Bumped(n)[unit.id := Fresh(unit)]
  }

  /** The first half of `remove_notify`: mark the record and close the gap
      its position leaves. */
  function Tombstoned(n: Records, id: nat): (m: Records)
    requires id in n
    ensures m.Keys == n.Keys
  {
    ShiftedAbove(n[id := n[id].(toDelete := true)], n[id].counter)
  }

  /** `retain(|_, v| !v.to_delete)`. */
  function Purged(n: Records): (m: Records)
    ensures m.Keys == LiveIds(n)
  {
    map id | id in n && !n[id].toDelete :: n[id]
  }

  /** The record store after `remove_notify` of a present `id`, given how
      many windows were bound and whether quiet mode is on: the marked
      records are purged unless a window had to be closed, and the removed
      record is dropped at once in quiet mode or when it was hidden. */
  function AfterRemove(n: Records, id: nat, windows: nat, quite: bool): (m: Records)
    requires id in n
  {
    var t := Tombstoned(n, id);
    var kept := if windows > |LiveIds(t)| then t else Purged(t);
    if quite || n[id].counter >= Config.MaxShownNotificationsCount then kept - {id} else kept
  }

  /** The hidden queue's members: live records past the last shown slot,
      or every live record in quiet mode. */
  function HiddenIds(n: Records, quite: bool): (s: set<nat>)
    ensures forall id :: id in s <==>
      id in n && !n[id].toDelete && (n[id].counter >= Config.MaxShownNotificationsCount || quite)
  {
    set id | id in n && (n[id].counter >= Config.MaxShownNotificationsCount || quite) && !n[id].toDelete
  }

  /** `hidden` lists the hidden records, each once, by ascending position. */
  ghost predicate ListsHidden(hidden: seq<Info>, n: Records, quite: bool) {
    (forall i :: 0 <= i < |hidden| ==> hidden[i].unit.id in HiddenIds(n, quite) && n[hidden[i].unit.id] == hidden[i]) &&
    (forall i, j :: 0 <= i < j < |hidden| ==> hidden[i].unit.id != hidden[j].unit.id) &&
    (forall i, j :: 0 <= i < j < |hidden| ==> hidden[i].counter <= hidden[j].counter) &&
    (forall id :: id in HiddenIds(n, quite) ==> exists i :: 0 <= i < |hidden| && hidden[i].unit.id == id)
  }

  /** Adding keeps every record at its offset and filed under its id, and a
      new notification keeps the live positions contiguous. */
  lemma AddedKeepsInvariants(n: Records, unit: NotifyUnit)
    requires OffsetLaw(n) && KeyedById(n)
    ensures OffsetLaw(Added(n, unit)) && KeyedById(Added(n, unit))
    ensures unit.id in n ==> LiveIds(Added(n, unit)) == LiveIds(n)
    ensures unit.id !in n ==> LiveIds(Added(n, unit)) == LiveIds(n) + {unit.id}
    ensures Contiguous(n) ==> Contiguous(Added(n, unit))
  {
    AddedFiled(n, unit);
    AddedLive(n, unit);
    if unit.id !in n && Contiguous(n) {
      AddedContiguous(n, unit);
    }
  }

  lemma AddedFiled(n: Records, unit: NotifyUnit)
    ensures OffsetLaw(n) ==> OffsetLaw(Added(n, unit))
    ensures KeyedById(n) ==> KeyedById(Added(n, unit))
  {
    var m := Added(n, unit);
    if OffsetLaw(n) {
      forall id | id in m
        ensures m[id].upper == Config.UpperFor(m[id].counter)
      {
        if id != unit.id {
          assert id in n;
        }
      }
    }
    if KeyedById(n) {
      forall id | id in m
        ensures m[id].unit.id == id
      {
        if id != unit.id {
          assert id in n;
        }
      }
    }
  }

  lemma AddedLive(n: Records, unit: NotifyUnit)
    ensures unit.id in n ==> LiveIds(Added(n, unit)) == LiveIds(n)
    ensures unit.id !in n ==> LiveIds(Added(n, unit)) == LiveIds(n) + {unit.id}
  {
    var m := Added(n, unit);
    if unit.id in n {
      assert LiveIds(m) == LiveIds(n);
    } else {
      assert LiveIds(m) == LiveIds(n) + {unit.id};
    }
  }

  lemma AddedContiguous(n: Records, unit: NotifyUnit)
    requires unit.id !in n && Contiguous(n)
    ensures Contiguous(Added(n, unit))
  {
    var m := Added(n, unit);
    AddedLive(n, unit);
    var live, live2 := LiveIds(n), LiveIds(m);
    assert |live2| == |live| + 1;
    forall a | a in live2
      ensures m[a].counter < |live2|
    {
      if a != unit.id {
        assert m[a].counter == n[a].counter + 1;
      }
    }
    forall a, b | a in live2 && b in live2 && a != b
      ensures m[a].counter != m[b].counter
    {
    }
  }

  /** What `UnitAdd` does to positions: an unknown id goes on top and every
      other record moves down one slot; a known id keeps its position, its
      offset and its mark. */
  lemma AddedPositions(n: Records, unit: NotifyUnit)
    ensures unit.id !in n ==> Added(n, unit)[unit.id] == Fresh(unit)
    ensures unit.id !in n ==> forall id :: id in n ==>
      Added(n, unit)[id].counter == n[id].counter + 1 && Added(n, unit)[id].upper == n[id].upper + 135 &&
      Added(n, unit)[id].toDelete == n[id].toDelete && Added(n, unit)[id].unit == n[id].unit
    ensures unit.id in n ==> Added(n, unit)[unit.id] == n[unit.id].(unit := unit)
    ensures unit.id in n ==> forall id :: id in n && id != unit.id ==> Added(n, unit)[id] == n[id]
  {
  }

  /** Marking keeps the offsets and the filing, takes exactly `id` out of
      the live set, and keeps the live positions contiguous when `id` was live. */
  lemma TombstonedKeepsInvariants(n: Records, id: nat)
    requires id in n && OffsetLaw(n) && KeyedById(n)
    ensures OffsetLaw(Tombstoned(n, id)) && KeyedById(Tombstoned(n, id))
    ensures LiveIds(Tombstoned(n, id)) == LiveIds(n) - {id}
    ensures Contiguous(n) && !n[id].toDelete ==> Contiguous(Tombstoned(n, id))
  {
    TombstonedFiled(n, id);
    TombstonedLive(n, id);
    if Contiguous(n) && !n[id].toDelete {
      TombstonedContiguous(n, id);
    }
  }

  lemma TombstonedFiled(n: Records, id: nat)
    requires id in n && OffsetLaw(n) && KeyedById(n)
    ensures OffsetLaw(Tombstoned(n, id)) && KeyedById(Tombstoned(n, id))
  {
    var t := Tombstoned(n, id);
    forall a | a in t
      ensures t[a].upper == Config.UpperFor(t[a].counter) && t[a].unit.id == a
    {
      assert a in n;
    }
  }

  lemma TombstonedLive(n: Records, id: nat)
    requires id in n
    ensures LiveIds(Tombstoned(n, id)) == LiveIds(n) - {id}
  {
    assert LiveIds(Tombstoned(n, id)) == LiveIds(n) - {id};
  }

  lemma TombstonedContiguous(n: Records, id: nat)
    requires id in n && Contiguous(n) && !n[id].toDelete
    ensures Contiguous(Tombstoned(n, id))
  {
    TombstonedBounded(n, id);
    TombstonedDistinct(n, id);
  }

  lemma TombstonedBounded(n: Records, id: nat)
    requires id in n && Contiguous(n) && !n[id].toDelete
    ensures forall a :: a in LiveIds(Tombstoned(n, id)) ==> Tombstoned(n, id)[a].counter < |LiveIds(Tombstoned(n, id))|
  {
    var t := Tombstoned(n, id);
    var k := n[id].counter;
    TombstonedLive(n, id);
    var live, live2 := LiveIds(n), LiveIds(t);
    assert live == live2 + {id};
    assert |live2| == |live| - 1;
    forall a | a in live2
      ensures t[a].counter < |live2|
    {
      assert n[a].counter != k;
    }
  }

  lemma TombstonedDistinct(n: Records, id: nat)
    requires id in n && Contiguous(n) && !n[id].toDelete
    ensures forall a, b :: a in LiveIds(Tombstoned(n, id)) && b in LiveIds(Tombstoned(n, id)) && a != b ==>
      Tombstoned(n, id)[a].counter != Tombstoned(n, id)[b].counter
  {
    var t := Tombstoned(n, id);
    var k := n[id].counter;
    TombstonedLive(n, id);
    forall a, b | a in LiveIds(t) && b in LiveIds(t) && a != b
      ensures t[a].counter != t[b].counter
    {
      assert n[a].counter != k && n[b].counter != k;
    }
  }

  /** Dropping a record that is not live keeps the live records as they were. */
  lemma DroppedKeepsInvariants(n: Records, id: nat)
    requires id !in LiveIds(n)
    ensures OffsetLaw(n) ==> OffsetLaw(n - {id})
    ensures KeyedById(n) ==> KeyedById(n - {id})
    ensures LiveIds(n - {id}) == LiveIds(n)
    ensures Contiguous(n) ==> Contiguous(n - {id})
  {
    assert LiveIds(n - {id}) == LiveIds(n);
  }

  /** Storing the text typed into a record's reply box changes nothing the
      invariants speak about. */
  lemma ReplyTextKeepsInvariants(n: Records, id: nat, text: string)
    requires id in n
    ensures LiveIds(n[id := n[id].(inlineReply := text)]) == LiveIds(n)
    ensures OffsetLaw(n) ==> OffsetLaw(n[id := n[id].(inlineReply := text)])
    ensures KeyedById(n) ==> KeyedById(n[id := n[id].(inlineReply := text)])
    ensures Contiguous(n) ==> Contiguous(n[id := n[id].(inlineReply := text)])
  {
    var m := n[id := n[id].(inlineReply := text)];
    assert LiveIds(m) == LiveIds(n);
  }

  /** Purging keeps the live records exactly as they were. */
  lemma PurgedKeepsInvariants(n: Records)
    requires OffsetLaw(n) && KeyedById(n)
    ensures OffsetLaw(Purged(n)) && KeyedById(Purged(n))
    ensures LiveIds(Purged(n)) == LiveIds(n)
    ensures Contiguous(n) ==> Contiguous(Purged(n))
  {
    assert LiveIds(Purged(n)) == LiveIds(n);
  }

  /** `remove_notify` keeps the offsets and the filing, and takes exactly
      `id` out of the live set. */
  lemma AfterRemoveKeepsInvariants(n: Records, id: nat, windows: nat, quite: bool)
    requires id in n && OffsetLaw(n) && KeyedById(n)
    ensures OffsetLaw(AfterRemove(n, id, windows, quite)) && KeyedById(AfterRemove(n, id, windows, quite))
    ensures LiveIds(AfterRemove(n, id, windows, quite)) == LiveIds(n) - {id}
    ensures Contiguous(n) && !n[id].toDelete ==> Contiguous(AfterRemove(n, id, windows, quite))
  {
    var t := Tombstoned(n, id);
    TombstonedKeepsInvariants(n, id);
    PurgedKeepsInvariants(t);
    var kept := if windows > |LiveIds(t)| then t else Purged(t);
    var m := AfterRemove(n, id, windows, quite);
    assert LiveIds(m) == LiveIds(kept);
  }

  /** `remove_notify` as it should be: an id that is absent or already
      marked is left alone, as the first removal already closed its gap. */
  function RemoveOnce(n: Records, id: nat, windows: nat, quite: bool): (m: Records)
    ensures LiveIds(m) == LiveIds(n) - {id}
    ensures id !in LiveIds(n) ==> m == n
  {
    if id !in n || n[id].toDelete then n
    else
      AfterRemoveLive(n, id, windows, quite);
      AfterRemove(n, id, windows, quite)
  }

  /** Removal takes exactly `id` out of the live set. */
  lemma AfterRemoveLive(n: Records, id: nat, windows: nat, quite: bool)
    requires id in n
    ensures LiveIds(AfterRemove(n, id, windows, quite)) == LiveIds(n) - {id}
  {
    var t := Tombstoned(n, id);
    TombstonedLive(n, id);
    assert LiveIds(Purged(t)) == LiveIds(t);
    var kept := if windows > |LiveIds(t)| then t else Purged(t);
    assert LiveIds(kept - {id}) == LiveIds(kept) - {id};
  }

  /** Removing twice is removing once, whatever the windows and the mode
      in between. */
  lemma RemoveOnceIdempotent(n: Records, id: nat, windows: nat, quite: bool, windows2: nat, quite2: bool)
    ensures RemoveOnce(RemoveOnce(n, id, windows, quite), id, windows2, quite2) == RemoveOnce(n, id, windows, quite)
  {
    if id in n && !n[id].toDelete {
      var t := Tombstoned(n, id);
      assert t[id].toDelete;
    }
  }

  /** The corrected removal keeps the live positions contiguous for every id. */
  lemma RemoveOnceKeepsContiguous(n: Records, id: nat, windows: nat, quite: bool)
    requires OffsetLaw(n) && KeyedById(n) && Contiguous(n)
    ensures Contiguous(RemoveOnce(n, id, windows, quite))
    ensures OffsetLaw(RemoveOnce(n, id, windows, quite)) && KeyedById(RemoveOnce(n, id, windows, quite))
  {
    if id in n && !n[id].toDelete {
      AfterRemoveKeepsInvariants(n, id, windows, quite);
    }
  }

  /** A unit with nothing but an id, for the example below. */
  function ExampleUnit(id: nat): NotifyUnit {
    NotifyUnit("", id, "", "", "", [], -1)
  }

  /** A live record at stack position `counter`. */
  function ExampleRecord(id: nat, counter: nat): Info {
    Info(false, Config.UpperFor(counter), counter, "", ExampleUnit(id))
  }

  /** Four notifications 1..4 arrived in order, all shown. */
  function FourShown(): Records {
    map[4 := ExampleRecord(4, 0), 3 := ExampleRecord(3, 1), 2 := ExampleRecord(2, 2), 1 := ExampleRecord(1, 3)]
  }

  /** A record at stack position `counter`, marked for deletion. */
  function ExampleMarked(id: nat, counter: nat): Info {
    ExampleRecord(id, counter).(toDelete := true)
  }

  /** The store after the first removal of 3. */
  function OnceRemoved(): Records {
    map[4 := ExampleRecord(4, 0), 3 := ExampleMarked(3, 1), 2 := ExampleRecord(2, 1), 1 := ExampleRecord(1, 2)]
  }

  /** The store after the second removal of 3. */
  function TwiceRemoved(): Records {
    map[4 := ExampleRecord(4, 0), 3 := ExampleMarked(3, 1), 2 := ExampleRecord(2, 1), 1 := ExampleRecord(1, 1)]
  }

  lemma FourShownContiguous()
    ensures Contiguous(FourShown())
  {
    var n := FourShown();
    assert LiveIds(n) == {1, 2, 3, 4};
    assert forall a :: a in LiveIds(n) ==> n[a].counter == 4 - a;
  }

  lemma OnceRemovedContiguous()
    ensures Contiguous(OnceRemoved())
  {
    assert LiveIds(OnceRemoved()) == {1, 2, 4};
  }

  lemma TwiceRemovedClash()
    ensures !Contiguous(TwiceRemoved())
  {
    var n2 := TwiceRemoved();
    assert 1 in LiveIds(n2) && 2 in LiveIds(n2) && n2[1].counter == n2[2].counter;
  }

  lemma FirstRemoval()
    ensures AfterRemove(FourShown(), 3, 4, false) == OnceRemoved()
  {
    var t := Tombstoned(FourShown(), 3);
    assert t == OnceRemoved();
    assert LiveIds(t) == {1, 2, 4};
  }

  lemma SecondRemoval()
    ensures AfterRemove(OnceRemoved(), 3, 4, false) == TwiceRemoved()
  {
    var t := Tombstoned(OnceRemoved(), 3);
    assert t == TwiceRemoved();
    assert LiveIds(t) == {1, 2, 4};
  }

  /** The removal as written is not idempotent: with four windows bound,
      removing 3 keeps its mark (a window is closed), and removing 3 again
      before that window reports its closing moves record 1 up a second
      time, onto the position record 2 already holds. */
  lemma DoubleRemovalBreaksContiguity()
    ensures Contiguous(FourShown())
    ensures Contiguous(AfterRemove(FourShown(), 3, 4, false))
    ensures 3 in AfterRemove(FourShown(), 3, 4, false)
    ensures !Contiguous(AfterRemove(AfterRemove(FourShown(), 3, 4, false), 3, 4, false))
  {
    FourShownContiguous();
    FirstRemoval();
    OnceRemovedContiguous();
    SecondRemoval();
    TwiceRemovedClash();
  }
}
