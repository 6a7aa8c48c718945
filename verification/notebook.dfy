/**
 * The campaign note book (NoteBook.java): entries indexed by id, by zone and
 * by reference, and the set of removed zones that refuses new entries.
 *
 * The pure part states each mutation on an `Index` value, the four maps and
 * the set taken together; the class `NoteBook` holds them as fields and its
 * methods update them in place, each proved to produce the state the pure
 * function describes. Locks and property-change events are not modelled.
 */
module NoteBooks {
  import opened Wrappers

  /** java.util.UUID of an entry. */
  type EntryId = nat

  /** GUID of a zone. */
  type ZoneId = nat

  /** A note book entry: its id, the zone it belongs to, and what it refers to. */
  datatype Entry = Entry(id: EntryId, zoneId: Option<ZoneId>, reference: Option<string>)

  /**
   * Key of the zone index: the private sentinel NO_ZONE_ID, a fresh GUID that
   * no zone has, or the id of a real zone.
   */
  datatype ZoneKey = NoZone | InZone(zone: ZoneId)

  /** entry.getZoneId().orElse(NO_ZONE_ID) */
  function KeyOf(e: Entry): ZoneKey {
    if e.zoneId.Some? then InZone(e.zoneId.value) else NoZone
  }

  /** The fields idEntryMap, zoneEntries, referenceEntries and removedZones together. */
  datatype Index = Index(
    idEntryMap: map<EntryId, Entry>,
    zoneEntries: map<ZoneKey, map<EntryId, Entry>>,
    referenceEntries: map<string, set<Entry>>,
    removedZones: set<ZoneKey>)

  /** Every entry of a zone map sits under its own id and belongs to that zone. */
  ghost predicate ZoneMapOf(m: map<EntryId, Entry>, k: ZoneKey) {
    forall i | i in m :: m[i].id == i && KeyOf(m[i]) == k
  }

  /** A reference set is never empty and holds only entries with that reference. */
  ghost predicate RefSetOf(s: set<Entry>, r: string) {
    s != {} && forall e | e in s :: e.reference == Some(r)
  }

  ghost predicate RefsConsistent(refs: map<string, set<Entry>>) {
    forall r | r in refs :: RefSetOf(refs[r], r)
  }

  /**
   * What every operation keeps: ids, zones and references agree with the key
   * they are filed under, no reference set is empty, the sentinel is never
   * removed, and a removed zone has no zone map.
   */
  ghost predicate Consistent(ix: Index) {
    && NoZone !in ix.removedZones
    && (forall i | i in ix.idEntryMap :: ix.idEntryMap[i].id == i)
    && (forall k | k in ix.zoneEntries :: ZoneMapOf(ix.zoneEntries[k], k))
    && RefsConsistent(ix.referenceEntries)
    && (forall k | k in ix.removedZones :: k !in ix.zoneEntries)
  }

  /** The entries filed under a zone key; none when it has no zone map. */
  function ZoneContents(ix: Index, k: ZoneKey): set<Entry> {
    if k in ix.zoneEntries then ix.zoneEntries[k].Values else {}
  }

  /** The entries filed under a reference; none when it has no set. */
  function RefContents(ix: Index, r: string): set<Entry> {
    if r in ix.referenceEntries then ix.referenceEntries[r] else {}
  }

  /** e is what the three indexes hold for its id, its zone and its reference. */
  ghost predicate Stored(ix: Index, e: Entry) {
    && e.id in ix.idEntryMap && ix.idEntryMap[e.id] == e
    && KeyOf(e) in ix.zoneEntries && e.id in ix.zoneEntries[KeyOf(e)]
    && ix.zoneEntries[KeyOf(e)][e.id] == e
    && (e.reference.Some? ==> e.reference.value in ix.referenceEntries
                              && e in ix.referenceEntries[e.reference.value])
  }

  /**
   * removeEntry dereferences referenceEntries.get(ref) and zoneEntries.get(zone)
   * without a null check: it completes only when both exist.
   */
  predicate Removable(ix: Index, e: Entry) {
    && (e.reference.Some? ==> e.reference.value in ix.referenceEntries)
    && (e.zoneId.Some? ==> InZone(e.zoneId.value) in ix.zoneEntries)
  }

  /** The state after an operation, and whether it completed (false: a NullPointerException escaped). */
  datatype Step = Step(index: Index, ok: bool)

  /** Takes e out of its reference set, dropping the set once it is empty. */
  function Unindex(refs: map<string, set<Entry>>, e: Entry): map<string, set<Entry>>
    requires e.reference.Some? ==> e.reference.value in refs
  {
    if e.reference.None? then refs
    else
      var r := e.reference.value;
      var rest := refs[r] - {e};
      if rest == {} then refs - {r} else refs[r := rest]
  }

  /**
   * removeEntry(entry, fire). The reference part runs before the zone part, so
   * a missing zone map fails after the reference set has already changed.
   */
  function Remove(ix: Index, e: Entry): (s: Step)
    ensures s.ok <==> Removable(ix, e)
    // The id map and the removed zones are never touched.
    ensures s.index.idEntryMap == ix.idEntryMap && s.index.removedZones == ix.removedZones
  {
    if e.reference.Some? && e.reference.value !in ix.referenceEntries then Step(ix, false)
    else
      var ix1 := ix.(referenceEntries := Unindex(ix.referenceEntries, e));
      if e.zoneId.None? then Step(ix1, true)
      else
        var k := InZone(e.zoneId.value);
        if k !in ix.zoneEntries then Step(ix1, false)
        else Step(ix1.(zoneEntries := ix.zoneEntries[k := ix.zoneEntries[k] - {e.id}]), true)
  }

  /** The three puts of putEntry: by id, into the reference set (created if absent), into the zone map (created if absent). */
  function Insert(ix: Index, e: Entry): Index {
    var k := KeyOf(e);
    var refs :=
      if e.reference.None? then ix.referenceEntries
      else
        var r := e.reference.value;
        ix.referenceEntries[r := (if r in ix.referenceEntries then ix.referenceEntries[r] else {}) + {e}];
    var zone := if k in ix.zoneEntries then ix.zoneEntries[k] else map[];
    ix.(idEntryMap := ix.idEntryMap[e.id := e],
        referenceEntries := refs,
        zoneEntries := ix.zoneEntries[k := zone[e.id := e]])
  }

  /**
   * putEntry(entry, fire): an entry of a removed zone is dropped silently; an
   * entry whose id is known first goes through removeEntry, called with the
   * NEW entry, and then is filed in the three indexes.
   */
  function Put(ix: Index, e: Entry): (s: Step)
    ensures KeyOf(e) in ix.removedZones ==> s == Step(ix, true)
    ensures s.ok <==> KeyOf(e) in ix.removedZones || e.id !in ix.idEntryMap || Removable(ix, e)
    ensures s.index.removedZones == ix.removedZones
    ensures s.ok && KeyOf(e) !in ix.removedZones ==> Stored(s.index, e)
  {
    if KeyOf(e) in ix.removedZones then Step(ix, true)
    else
      var s := if e.id in ix.idEntryMap then Remove(ix, e) else Step(ix, true);
      if !s.ok then s else Step(Insert(s.index, e), true)
  }

  /**
   * removeEntry changes only the zone map of e's own zone (a zone-less entry
   * leaves the NO_ZONE_ID map alone) and e's own reference set, which loses e
   * and goes once nothing else is left in it.
   */
  lemma RemoveTouchesOnlyItsKeys(ix: Index, e: Entry)
    ensures var s := Remove(ix, e);
      && s.index.zoneEntries.Keys == ix.zoneEntries.Keys
      && (forall k | k in ix.zoneEntries && (e.zoneId.None? || k != InZone(e.zoneId.value)) ::
            s.index.zoneEntries[k] == ix.zoneEntries[k])
      && (s.ok && e.zoneId.Some? ==>
            s.index.zoneEntries[InZone(e.zoneId.value)] == ix.zoneEntries[InZone(e.zoneId.value)] - {e.id})
      && (s.ok && e.reference.Some? ==>
            var r := e.reference.value;
            && (r in s.index.referenceEntries <==> ix.referenceEntries[r] - {e} != {})
            && (r in s.index.referenceEntries ==> s.index.referenceEntries[r] == ix.referenceEntries[r] - {e}))
      && (forall r | r in ix.referenceEntries && e.reference != Some(r) ::
            r in s.index.referenceEntries && s.index.referenceEntries[r] == ix.referenceEntries[r])
  {
  }

  /**
   * putEntry changes only the zone map of e's zone and e's reference set:
   * once it completes, the zone map is the old one (or a new empty one) with
   * e under its id, and the reference set the old one (or a new one) with e.
   */
  lemma PutTouchesOnlyItsKeys(ix: Index, e: Entry)
    ensures var s := Put(ix, e); var k := KeyOf(e);
      && (forall k' | k' != k ::
            && (k' in s.index.zoneEntries <==> k' in ix.zoneEntries)
            && (k' in ix.zoneEntries ==> s.index.zoneEntries[k'] == ix.zoneEntries[k']))
      && (forall r | e.reference != Some(r) ::
            && (r in s.index.referenceEntries <==> r in ix.referenceEntries)
            && (r in ix.referenceEntries ==> s.index.referenceEntries[r] == ix.referenceEntries[r]))
      && (s.ok && k !in ix.removedZones ==>
            && k in s.index.zoneEntries
            && s.index.zoneEntries[k] == (if k in ix.zoneEntries then ix.zoneEntries[k] else map[])[e.id := e])
      && (s.ok && k !in ix.removedZones && e.reference.Some? ==>
            RefContents(s.index, e.reference.value) == RefContents(ix, e.reference.value) + {e})
  {
    var k := KeyOf(e);
    if k !in ix.removedZones && e.id in ix.idEntryMap {
      RemoveTouchesOnlyItsKeys(ix, e);
      var s1 := Remove(ix, e);
      if s1.ok {
        if k in ix.zoneEntries {
          assert (ix.zoneEntries[k] - {e.id})[e.id := e] == ix.zoneEntries[k][e.id := e];
        }
        if e.reference.Some? {
          var r := e.reference.value;
          assert (RefContents(ix, r) - {e}) + {e} == RefContents(ix, r) + {e};
        }
      }
    }
  }

  /**
   * What the queries answer after a completed putEntry of an entry whose zone
   * is not removed: e's zone holds e and the old entries with other ids, e's
   * reference set gains e, and every other zone and reference answers as before.
   */
  lemma PutQueries(ix: Index, e: Entry)
    requires Consistent(ix)
    requires Put(ix, e).ok && KeyOf(e) !in ix.removedZones
    ensures var s := Put(ix, e).index; var k := KeyOf(e);
      && ZoneContents(s, k) == {e} + (set e' | e' in ZoneContents(ix, k) && e'.id != e.id)
      && (e.reference.Some? ==> RefContents(s, e.reference.value) == RefContents(ix, e.reference.value) + {e})
      && (forall k' | k' != k :: ZoneContents(s, k') == ZoneContents(ix, k'))
      && (forall r | e.reference != Some(r) :: RefContents(s, r) == RefContents(ix, r))
  {
    PutTouchesOnlyItsKeys(ix, e);
    var s := Put(ix, e).index;
    var k := KeyOf(e);
    var m := if k in ix.zoneEntries then ix.zoneEntries[k] else map[];
    assert ZoneMapOf(m, k);
    assert s.zoneEntries[k] == m[e.id := e];
    forall e' | e' in ZoneContents(s, k)
      ensures e' in {e} + (set e' | e' in ZoneContents(ix, k) && e'.id != e.id)
    {
      var i :| i in m[e.id := e] && m[e.id := e][i] == e';
      if i != e.id {
        assert e' == m[i] && e'.id == i;
      }
    }
    forall e' | e' in ZoneContents(ix, k) && e'.id != e.id
      ensures e' in ZoneContents(s, k)
    {
      var i :| i in m && m[i] == e';
      assert m[e.id := e][i] == e';
    }
    assert e == m[e.id := e][e.id];
  }

  /** putEntry (re)binds only e's id in the id map, and no id ever leaves it. */
  lemma PutTouchesOnlyItsId(ix: Index, e: Entry)
    ensures var s := Put(ix, e);
      && ix.idEntryMap.Keys <= s.index.idEntryMap.Keys <= ix.idEntryMap.Keys + {e.id}
      && (forall i | i in ix.idEntryMap && i != e.id :: s.index.idEntryMap[i] == ix.idEntryMap[i])
  {
  }

  lemma RemoveConsistent(ix: Index, e: Entry)
    requires Consistent(ix)
    ensures Consistent(Remove(ix, e).index)
  {
    var s := Remove(ix, e).index;
    if e.zoneId.Some? && InZone(e.zoneId.value) in ix.zoneEntries {
      var k := InZone(e.zoneId.value);
      assert ZoneMapOf(s.zoneEntries[k], k) by {
        assert ZoneMapOf(ix.zoneEntries[k], k);
      }
    }
  }

  lemma PutConsistent(ix: Index, e: Entry)
    requires Consistent(ix)
    ensures Consistent(Put(ix, e).index)
  {
    if KeyOf(e) !in ix.removedZones {
      var s := if e.id in ix.idEntryMap then Remove(ix, e) else Step(ix, true);
      if e.id in ix.idEntryMap {
        RemoveConsistent(ix, e);
      }
      if s.ok {
        InsertConsistent(s.index, e);
      }
    }
  }

  /** The three puts keep the index consistent, for an entry whose zone is not removed. */
  lemma InsertConsistent(ix: Index, e: Entry)
    requires Consistent(ix) && KeyOf(e) !in ix.removedZones
    ensures Consistent(Insert(ix, e))
  {
    var ix2 := Insert(ix, e);
    var k := KeyOf(e);
    assert ZoneMapOf(ix2.zoneEntries[k], k) by {
      if k in ix.zoneEntries {
        assert ZoneMapOf(ix.zoneEntries[k], k);
      }
    }
    assert RefsConsistent(ix2.referenceEntries) by {
      forall r | r in ix2.referenceEntries ensures RefSetOf(ix2.referenceEntries[r], r) {
        if r in ix.referenceEntries {
          assert RefSetOf(ix.referenceEntries[r], r);
        }
      }
    }
  }

  /**
   * The replace quirk: putEntry unindexes the NEW entry, so the entry it
   * replaces stays in a reference set and in a zone map that the new entry
   * does not share, although getById no longer returns it.
   */
  lemma ReplaceLeavesOldEntry(ix: Index, e: Entry)
    requires Consistent(ix) && KeyOf(e) !in ix.removedZones && e.id in ix.idEntryMap
    requires Put(ix, e).ok
    ensures var old_ := ix.idEntryMap[e.id]; var s := Put(ix, e).index;
      && (old_ != e ==> s.idEntryMap[e.id] != old_)
      && (forall r ::
            (old_.reference == Some(r) && e.reference != Some(r)
             && r in ix.referenceEntries && old_ in ix.referenceEntries[r])
            ==> r in s.referenceEntries && old_ in s.referenceEntries[r])
      && (KeyOf(old_) != KeyOf(e) && KeyOf(old_) in ix.zoneEntries && e.id in ix.zoneEntries[KeyOf(old_)]
          ==> s.zoneEntries[KeyOf(old_)][e.id] == ix.zoneEntries[KeyOf(old_)][e.id])
  {
    var r1 := Remove(ix, e);
    assert r1.ok;
    RemoveTouchesOnlyItsKeys(ix, e);
    var old_ := ix.idEntryMap[e.id];
    var k := KeyOf(old_);
    if k != KeyOf(e) && k in ix.zoneEntries && e.id in ix.zoneEntries[k] {
      assert e.zoneId.None? || k != InZone(e.zoneId.value);
      assert r1.index.zoneEntries[k] == ix.zoneEntries[k];
    }
  }

  /** zoneAdded(zoneId): only the removed-zone mark goes. */
  function WithZoneAdded(ix: Index, z: ZoneId): (r: Index)
    ensures InZone(z) !in r.removedZones
    ensures r.removedZones + {InZone(z)} == ix.removedZones + {InZone(z)}
    ensures r.idEntryMap == ix.idEntryMap && r.zoneEntries == ix.zoneEntries
    ensures r.referenceEntries == ix.referenceEntries
  {
    ix.(removedZones := ix.removedZones - {InZone(z)})
  }

  /** Every reference set without the given entries; sets left empty are dropped. */
  function StripRefs(refs: map<string, set<Entry>>, gone: set<Entry>): map<string, set<Entry>> {
    map r | r in refs && refs[r] - gone != {} :: refs[r] - gone
  }

  /**
   * The state zoneRemoved(z) leaves when every removal succeeds: each entry in
   * z's zone map has left its reference set, z's zone map is gone, z is marked
   * removed, and the id map still holds the entries.
   */
  function AfterZoneRemoved(ix: Index, z: ZoneId): (r: Index)
    ensures InZone(z) in r.removedZones && InZone(z) !in r.zoneEntries
    ensures ZoneContents(r, InZone(z)) == {}
    ensures r.idEntryMap == ix.idEntryMap
    ensures forall ref | ref in r.referenceEntries :: r.referenceEntries[ref] !! ZoneContents(ix, InZone(z))
    ensures forall k | k in ix.zoneEntries && k != InZone(z) :: k in r.zoneEntries && r.zoneEntries[k] == ix.zoneEntries[k]
  {
    var k := InZone(z);
    Index(ix.idEntryMap, ix.zoneEntries - {k}, StripRefs(ix.referenceEntries, ZoneContents(ix, k)),
          ix.removedZones + {k})
  }

  /** Every entry of z's zone map is in the reference set of its reference. */
  ghost predicate ZoneIndexed(ix: Index, z: ZoneId) {
    forall e | e in ZoneContents(ix, InZone(z)) ::
      e.reference.Some? ==> e.reference.value in ix.referenceEntries
                            && e in ix.referenceEntries[e.reference.value]
  }

  /** An entry of a zone map is filed under that zone's key. */
  lemma ZoneEntryKey(ix: Index, k: ZoneKey, e: Entry)
    requires Consistent(ix) && k in ix.zoneEntries && e in ix.zoneEntries[k].Values
    ensures KeyOf(e) == k
  {
    var i :| i in ix.zoneEntries[k] && ix.zoneEntries[k][i] == e;
    assert ZoneMapOf(ix.zoneEntries[k], k);
  }

  /** One removal of the zoneRemoved loop strips one more entry from the reference sets and touches only z's zone map. */
  lemma StripStep(ix0: Index, cur: Index, z: ZoneId, done: set<Entry>, e: Entry)
    requires RefsConsistent(ix0.referenceEntries)
    requires cur.referenceEntries == StripRefs(ix0.referenceEntries, done)
    requires InZone(z) in cur.zoneEntries && KeyOf(e) == InZone(z)
    requires Remove(cur, e).ok
    ensures Remove(cur, e).index.referenceEntries == StripRefs(ix0.referenceEntries, done + {e})
    ensures InZone(z) in Remove(cur, e).index.zoneEntries
    ensures Remove(cur, e).index.zoneEntries - {InZone(z)} == cur.zoneEntries - {InZone(z)}
  {
    StripOneMore(ix0.referenceEntries, done, e);
  }

  /** While zoneRemoved strips its entries, the reference of every entry still pending keeps its set. */
  lemma PendingStillIndexed(ix: Index, z: ZoneId, pending: set<Entry>, done: set<Entry>)
    requires pending + done <= ZoneContents(ix, InZone(z)) && pending !! done
    ensures ZoneIndexed(ix, z) ==>
      forall e | e in pending :: e.reference.Some? ==> e.reference.value in StripRefs(ix.referenceEntries, done)
  {
    if ZoneIndexed(ix, z) {
      forall e | e in pending && e.reference.Some?
        ensures e.reference.value in StripRefs(ix.referenceEntries, done)
      {
        var r := e.reference.value;
        assert e in ix.referenceEntries[r] - done;
      }
    }
  }

  lemma StripNothing(refs: map<string, set<Entry>>)
    requires RefsConsistent(refs)
    ensures StripRefs(refs, {}) == refs
  {
    var m := StripRefs(refs, {});
    forall r | r in refs ensures r in m && m[r] == refs[r] {
      assert RefSetOf(refs[r], r);
      assert refs[r] - {} == refs[r];
    }
    assert m.Keys == refs.Keys;
  }

  /** Removing one more entry from stripped reference sets strips it too. */
  lemma StripOneMore(refs: map<string, set<Entry>>, gone: set<Entry>, e: Entry)
    requires RefsConsistent(refs)
    requires e.reference.Some? ==> e.reference.value in StripRefs(refs, gone)
    ensures Unindex(StripRefs(refs, gone), e) == StripRefs(refs, gone + {e})
  {
    var before := StripRefs(refs, gone);
    var after := StripRefs(refs, gone + {e});
    var u := Unindex(before, e);
    forall r | r in refs && e.reference != Some(r) ensures refs[r] - gone == refs[r] - (gone + {e}) {
      assert RefSetOf(refs[r], r);
      assert e !in refs[r];
    }
    assert u.Keys == after.Keys;
    forall r | r in u ensures u[r] == after[r] {
      if e.reference == Some(r) {
        assert refs[r] - gone - {e} == refs[r] - (gone + {e});
      }
    }
  }

  lemma AfterZoneRemovedConsistent(ix: Index, z: ZoneId)
    requires Consistent(ix)
    ensures Consistent(AfterZoneRemoved(ix, z))
  {
    var r := AfterZoneRemoved(ix, z);
    forall ref | ref in r.referenceEntries ensures RefSetOf(r.referenceEntries[ref], ref) {
      assert RefSetOf(ix.referenceEntries[ref], ref);
    }
  }

  /** After zoneRemoved(z) every put for z is dropped; zoneAdded(z) lets them in again. */
  lemma RemovedZoneRefusesUntilAdded(ix: Index, z: ZoneId, e: Entry)
    requires Consistent(ix) && KeyOf(e) == InZone(z)
    ensures Put(AfterZoneRemoved(ix, z), e) == Step(AfterZoneRemoved(ix, z), true)
    ensures var back := WithZoneAdded(AfterZoneRemoved(ix, z), z);
      e.id !in ix.idEntryMap ==> Put(back, e).ok && Stored(Put(back, e).index, e)
  {
  }

  /** The outcome of putEntries: the final step and the entries it reported as replaced. */
  datatype Batch = Batch(step: Step, replaced: set<Entry>)

  /** The entry filed under e's id before e is put, if any. */
  function Displaced(ix: Index, e: Entry): set<Entry> {
    if e.id in ix.idEntryMap then {ix.idEntryMap[e.id]} else {}
  }

  /** Regrouping the replaced entries as the loop moves one note on. */
  lemma UnionRegroup(w: set<Entry>, a: set<Entry>, d: set<Entry>, r: set<Entry>)
    requires w == a + (d + r)
    ensures w == (a + d) + r
  {
  }

  /** One round of the putEntries loop, from note i on. */
  lemma PutAllFirst(ix: Index, notes: seq<Entry>, i: nat)
    requires i < |notes|
    ensures var s := Put(ix, notes[i]);
      var b := PutAll(ix, notes[i..]);
      && (!s.ok ==> b.step == s)
      && (s.ok ==> b.step == PutAll(s.index, notes[i + 1..]).step
                   && b.replaced == Displaced(ix, notes[i]) + PutAll(s.index, notes[i + 1..]).replaced)
  {
    assert notes[i..][0] == notes[i] && notes[i..][1..] == notes[i + 1..];
  }

  /**
   * putEntries(notes): before each putEntry the entry then filed under the
   * note's id is collected as replaced; an exception ends the batch.
   */
  function PutAll(ix: Index, notes: seq<Entry>): (b: Batch)
    ensures b.step.index.removedZones == ix.removedZones
    decreases |notes|
  {
    if notes == [] then Batch(Step(ix, true), {})
    else
      var e := notes[0];
      var replaced := Displaced(ix, e);
      var s := Put(ix, e);
      if !s.ok then Batch(s, replaced)
      else
        var rest := PutAll(s.index, notes[1..]);
        Batch(rest.step, replaced + rest.replaced)
  }

  lemma {:induction false} PutAllConsistent(ix: Index, notes: seq<Entry>)
    requires Consistent(ix)
    ensures Consistent(PutAll(ix, notes).step.index)
    decreases |notes|
  {
    if notes != [] {
      PutConsistent(ix, notes[0]);
      var s := Put(ix, notes[0]);
      if s.ok {
        PutAllConsistent(s.index, notes[1..]);
      }
    }
  }

  /**
   * putEntries reports exactly the entries it displaced: each one was filed
   * under the id of some note, and every entry filed under a note's id before
   * the batch is among them.
   */
  lemma {:induction false} PutAllReportsReplaced(ix: Index, notes: seq<Entry>)
    requires Consistent(ix) && PutAll(ix, notes).step.ok
    ensures forall o | o in PutAll(ix, notes).replaced :: exists n :: n in notes && n.id == o.id
    ensures forall n | n in notes && n.id in ix.idEntryMap :: ix.idEntryMap[n.id] in PutAll(ix, notes).replaced
    decreases |notes|
  {
    if notes != [] {
      var e := notes[0];
      var s := Put(ix, e);
      var b := PutAll(ix, notes);
      var rest := PutAll(s.index, notes[1..]);
      PutConsistent(ix, e);
      PutAllReportsReplaced(s.index, notes[1..]);
      PutTouchesOnlyItsId(ix, e);
      assert b.replaced == (if e.id in ix.idEntryMap then {ix.idEntryMap[e.id]} else {}) + rest.replaced;
      forall o | o in b.replaced ensures exists n :: n in notes && n.id == o.id {
        if o in rest.replaced {
          var n :| n in notes[1..] && n.id == o.id;
          assert n in notes;
        } else {
          assert e in notes && o == ix.idEntryMap[e.id];
        }
      }
      forall n | n in notes && n.id in ix.idEntryMap ensures ix.idEntryMap[n.id] in b.replaced {
        if n.id != e.id {
          assert n in notes[1..];
          assert s.index.idEntryMap[n.id] == ix.idEntryMap[n.id];
        }
      }
    }
  }

  /** Entries under ids that no note carries are left alone by a batch. */
  lemma {:induction false} PutAllKeepsOtherIds(ix: Index, notes: seq<Entry>, id: EntryId)
    requires id in ix.idEntryMap && forall n | n in notes :: n.id != id
    ensures id in PutAll(ix, notes).step.index.idEntryMap
    ensures PutAll(ix, notes).step.index.idEntryMap[id] == ix.idEntryMap[id]
    decreases |notes|
  {
    if notes != [] {
      var s := Put(ix, notes[0]);
      PutTouchesOnlyItsId(ix, notes[0]);
      if s.ok {
        PutAllKeepsOtherIds(s.index, notes[1..], id);
      }
    }
  }

  /** In a completed batch, the last note with a given id that is not refused is the one getById returns. */
  lemma {:induction false} PutAllLastWins(ix: Index, notes: seq<Entry>, i: nat)
    requires i < |notes| && KeyOf(notes[i]) !in ix.removedZones
    requires forall j | i < j < |notes| :: notes[j].id != notes[i].id
    requires PutAll(ix, notes).step.ok
    ensures notes[i].id in PutAll(ix, notes).step.index.idEntryMap
    ensures PutAll(ix, notes).step.index.idEntryMap[notes[i].id] == notes[i]
    decreases |notes|
  {
    var s := Put(ix, notes[0]);
    assert s.ok;
    if i == 0 {
      PutAllKeepsOtherIds(s.index, notes[1..], notes[0].id);
    } else {
      assert notes[1..][i - 1] == notes[i];
      PutAllLastWins(s.index, notes[1..], i - 1);
    }
  }

  /** getEntriesByZone reports the NO_ZONE_ID entries under the null key. */
  function Nullable(k: ZoneKey): Option<ZoneId> {
    if k.NoZone? then None else Some(k.zone)
  }

  function FromNullable(n: Option<ZoneId>): ZoneKey {
    if n.None? then NoZone else InZone(n.value)
  }

  class NoteBook {
    var idEntryMap: map<EntryId, Entry>
    var zoneEntries: map<ZoneKey, map<EntryId, Entry>>
    var referenceEntries: map<string, set<Entry>>
    var removedZones: set<ZoneKey>

    function Snapshot(): Index
      reads this
    {
      Index(idEntryMap, zoneEntries, referenceEntries, removedZones)
    }

    ghost predicate Valid()
      reads this
    {
      Consistent(Snapshot())
    }

    constructor ()
      ensures Valid()
      ensures Snapshot() == Index(map[], map[], map[], {})
    {
      idEntryMap := map[];
      zoneEntries := map[];
      referenceEntries := map[];
      removedZones := {};
    }

    /** removeEntry(entry): ok is false when the NullPointerException of a missing set or zone map escapes. */
    method RemoveEntry(e: Entry) returns (ok: bool)
      requires Valid()
      modifies this
      ensures Valid()
      ensures ok == Removable(old(Snapshot()), e)
      ensures Snapshot() == Remove(old(Snapshot()), e).index
    {
      RemoveConsistent(Snapshot(), e);
      if e.reference.Some? {
        var r := e.reference.value;
        if r !in referenceEntries {
          return false;
        }
        var entries := referenceEntries[r] - {e};
        if entries == {} {
          referenceEntries := referenceEntries - {r};
        } else {
          referenceEntries := referenceEntries[r := entries];
        }
      }
      if e.zoneId.Some? {
        var k := InZone(e.zoneId.value);
        if k !in zoneEntries {
          return false;
        }
        zoneEntries := zoneEntries[k := zoneEntries[k] - {e.id}];
      }
      ok := true;
    }

    /** putEntry(entry): add, or replace whatever has the same id. */
    method PutEntry(e: Entry) returns (ok: bool)
      requires Valid()
      modifies this
      ensures Valid()
      ensures ok == Put(old(Snapshot()), e).ok
      ensures Snapshot() == Put(old(Snapshot()), e).index
      ensures KeyOf(e) in old(removedZones) ==> ok && Snapshot() == old(Snapshot())
      ensures ok && KeyOf(e) !in removedZones ==>
        && GetById(e.id) == Some(e)
        && e in GetZoneContents(KeyOf(e))
        && (e.reference.Some? ==> e in GetByReference(e.reference.value))
    {
      ghost var before := Snapshot();
      PutConsistent(before, e);
      var k := KeyOf(e);
      if k in removedZones {
        return true;
      }
      if e.id in idEntryMap {
        ok := RemoveEntry(e);
        if !ok {
          return;
        }
      }
      ghost var mid := Snapshot();
      assert mid == (if e.id in before.idEntryMap then Remove(before, e) else Step(before, true)).index;
      idEntryMap := idEntryMap[e.id := e];
      if e.reference.Some? {
        var r := e.reference.value;
        var entries: set<Entry> := if r in referenceEntries then referenceEntries[r] else {};
        referenceEntries := referenceEntries[r := entries + {e}];
      }
      var zone: map<EntryId, Entry> := if k in zoneEntries then zoneEntries[k] else map[];
      zoneEntries := zoneEntries[k := zone[e.id := e]];
      ok := true;
      assert Snapshot() == Insert(mid, e);
    }

    /** The body of putEntries before each put: collect the entry now filed under the note's id. */
    method CollectDisplaced(note: Entry, replaced: set<Entry>) returns (replaced': set<Entry>)
      ensures replaced' == replaced + Displaced(Snapshot(), note)
    {
      replaced' := replaced;
      if note.id in idEntryMap {
        replaced' := replaced' + {idEntryMap[note.id]};
      }
    }

    /** putEntries(notes): puts in order; replaced is the oldValue of the event it fires. */
    method PutEntries(notes: seq<Entry>) returns (ok: bool, replaced: set<Entry>)
      requires Valid()
      modifies this
      ensures Valid()
      ensures ok == PutAll(old(Snapshot()), notes).step.ok
      ensures Snapshot() == PutAll(old(Snapshot()), notes).step.index
      ensures ok ==> replaced == PutAll(old(Snapshot()), notes).replaced
    {
      ghost var whole := PutAll(Snapshot(), notes);
      replaced := {};
      var i := 0;
      while i < |notes|
        invariant 0 <= i <= |notes|
        invariant Valid()
        invariant PutAll(Snapshot(), notes[i..]).step == whole.step
        invariant whole.replaced == replaced + PutAll(Snapshot(), notes[i..]).replaced
      {
        var note := notes[i];
        ghost var before, replacedBefore := Snapshot(), replaced;
        PutAllFirst(before, notes, i);
        replaced := CollectDisplaced(note, replaced);
        ok := PutEntry(note);
        if !ok {
          return;
        }
        UnionRegroup(whole.replaced, replacedBefore, Displaced(before, note), PutAll(Snapshot(), notes[i + 1..]).replaced);
        i := i + 1;
      }
      ok := true;
    }

    function GetById(id: EntryId): (r: Option<Entry>)
      reads this
      requires Valid()
      ensures r.Some? ==> r.value.id == id
      ensures r.None? <==> id !in idEntryMap
    {
      if id in idEntryMap then Some(idEntryMap[id]) else None
    }

    /** getEntries(): every entry known by id, and nothing else. */
    function GetEntries(): (r: set<Entry>)
      reads this
      requires Valid()
      ensures forall e | e in r :: GetById(e.id) == Some(e)
      ensures forall i | i in idEntryMap :: idEntryMap[i] in r
    {
      idEntryMap.Values
    }

    /** The entries of a zone map: exactly what is filed in it, each under its own id. */
    function GetZoneContents(k: ZoneKey): (r: set<Entry>)
      reads this
      requires Valid()
      ensures forall e | e in r ::
        && KeyOf(e) == k && k in zoneEntries && e.id in zoneEntries[k] && zoneEntries[k][e.id] == e
      ensures k in zoneEntries ==> forall i | i in zoneEntries[k] :: zoneEntries[k][i] in r
      ensures k !in zoneEntries ==> r == {}
    {
      ZoneContents(Snapshot(), k)
    }

    /** getZoneEntries(zoneId): the zone's map, empty for a zone without one. */
    function GetZoneEntries(z: ZoneId): (r: set<Entry>)
      reads this
      requires Valid()
      ensures forall e | e in r ::
        && e.zoneId == Some(z) && InZone(z) in zoneEntries && e.id in zoneEntries[InZone(z)]
        && zoneEntries[InZone(z)][e.id] == e
      ensures InZone(z) in zoneEntries ==> forall i | i in zoneEntries[InZone(z)] :: zoneEntries[InZone(z)][i] in r
      ensures InZone(z) !in zoneEntries || InZone(z) in removedZones ==> r == {}
    {
      GetZoneContents(InZone(z))
    }

    /** getZoneLessEntries(): the NO_ZONE_ID zone map, empty before any zone-less put. */
    function GetZoneLessEntries(): (r: set<Entry>)
      reads this
      requires Valid()
      ensures forall e | e in r ::
        && e.zoneId.None? && NoZone in zoneEntries && e.id in zoneEntries[NoZone] && zoneEntries[NoZone][e.id] == e
      ensures NoZone in zoneEntries ==> forall i | i in zoneEntries[NoZone] :: zoneEntries[NoZone][i] in r
      ensures NoZone !in zoneEntries ==> r == {}
    {
      GetZoneContents(NoZone)
    }

    /** getByReference(ref): a copy of the reference set, or an empty set. */
    function GetByReference(ref: string): (r: set<Entry>)
      reads this
      requires Valid()
      ensures forall e | e in r :: e.reference == Some(ref)
      ensures r == {} <==> ref !in referenceEntries
      ensures ref in referenceEntries ==> r == referenceEntries[ref]
    {
      RefContents(Snapshot(), ref)
    }

    /** The loop of zoneRemoved: every entry of z's zone map is removed, in no particular order. */
    method RemoveZoneMembers(z: ZoneId) returns (ok: bool)
      requires Valid() && InZone(z) in zoneEntries
      modifies this
      ensures Valid()
      ensures idEntryMap == old(idEntryMap) && removedZones == old(removedZones)
      ensures ok ==> referenceEntries == StripRefs(old(referenceEntries), ZoneContents(old(Snapshot()), InZone(z)))
      ensures ok ==> InZone(z) in zoneEntries && zoneEntries - {InZone(z)} == old(zoneEntries) - {InZone(z)}
      ensures ZoneIndexed(old(Snapshot()), z) ==> ok
    {
      ghost var ix0 := Snapshot();
      var k := InZone(z);
      ghost var all := ZoneContents(ix0, k);
      ghost var done: set<Entry> := {};
      StripNothing(referenceEntries);
      var pending := zoneEntries[k].Values;
      ok := true;
      while pending != {}
        invariant Valid()
        invariant pending + done == all && pending !! done
        invariant idEntryMap == ix0.idEntryMap && removedZones == ix0.removedZones
        invariant referenceEntries == StripRefs(ix0.referenceEntries, done)
        invariant k in zoneEntries && zoneEntries - {k} == ix0.zoneEntries - {k}
        invariant ZoneIndexed(ix0, z) ==>
          forall e | e in pending :: e.reference.Some? ==> e.reference.value in referenceEntries
        decreases pending
      {
        var e :| e in pending;
        ZoneEntryKey(ix0, k, e);
        ghost var cur := Snapshot();
        ok := RemoveEntry(e);
        if !ok {
          return;
        }
        StripStep(ix0, cur, z, done, e);
        pending := pending - {e};
        done := done + {e};
        PendingStillIndexed(ix0, z, pending, done);
      }
    }

    /**
     * zoneRemoved(zoneId): removes each entry of the zone map, in the
     * unspecified order of a HashSet, then marks the zone removed. ok is false
     * when one of the removals throws.
     */
    method ZoneRemoved(z: ZoneId) returns (ok: bool)
      requires Valid()
      modifies this
      ensures Valid()
      ensures idEntryMap == old(idEntryMap)
      ensures ok ==> Snapshot() == AfterZoneRemoved(old(Snapshot()), z)
      ensures ZoneIndexed(old(Snapshot()), z) ==> ok
      ensures !ok ==> removedZones == old(removedZones)
    {
      ghost var ix0 := Snapshot();
      var k := InZone(z);
      if k in zoneEntries {
        ok := RemoveZoneMembers(z);
        if !ok {
          return;
        }
      } else {
        StripNothing(referenceEntries);
      }
      AfterZoneRemovedConsistent(ix0, z);
      removedZones := removedZones + {k};
      zoneEntries := zoneEntries - {k};
      ok := true;
    }

    /** zoneAdded(zoneId): the zone may receive entries again. */
    method ZoneAdded(z: ZoneId)
      requires Valid()
      modifies this
      ensures Valid()
      ensures Snapshot() == WithZoneAdded(old(Snapshot()), z)
    {
      removedZones := removedZones - {InZone(z)};
    }

    /** getEntriesByZone(): each zone's entries, the zone-less ones under the null key. */
    method GetEntriesByZone() returns (entries: map<Option<ZoneId>, set<Entry>>)
      ensures forall k | k in zoneEntries :: Nullable(k) in entries && entries[Nullable(k)] == zoneEntries[k].Values
      ensures forall n | n in entries :: FromNullable(n) in zoneEntries
    {
      entries := map[];
      var keys := zoneEntries.Keys;
      while keys != {}
        invariant keys <= zoneEntries.Keys
        invariant forall k | k in zoneEntries && k !in keys ::
          Nullable(k) in entries && entries[Nullable(k)] == zoneEntries[k].Values
        invariant forall n | n in entries :: FromNullable(n) in zoneEntries && FromNullable(n) !in keys
        decreases keys
      {
        var k :| k in keys;
        var zEntries := zoneEntries[k].Values;
        if k == NoZone {
          entries := entries[None := zEntries];
        } else {
          entries := entries[Some(k.zone) := zEntries];
        }
        keys := keys - {k};
      }
    }
  }
}
