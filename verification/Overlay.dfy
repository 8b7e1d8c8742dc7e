/** Reads that see an invocation's own buffered writes over the host's view. */
module Overlay {
  import opened Options
  import opened FieldMerge

  datatype Method = Put | Patch | Delete

  type Fields<V> = map<string, Field<V>>

  datatype Update<V> = Update(subjectId: string, subjectType: string, kind: Method, fields: Fields<V>)

  /** The wire shape of one entity; a missing stamp is an empty string there. */
  datatype Entity<V> = Entity(id: string, subjectType: string, fields: Fields<V>,
                              createdHlc: Option<nat>, updatedHlc: Option<nat>, lastGsn: nat)

  /** The stored fields of a row, or nothing if there is no row. */
  type Row<V> = Option<Fields<V>>

  function MergeFields<V>(base: Fields<V>, incoming: Fields<V>): Fields<V>
  {
    Merge(Map(base), Map(incoming)).entries
  }

  /** What one update does to a row. */
  function Apply<V>(row: Row<V>, u: Update<V>): Row<V>
  {
    match u.kind
    case Delete => None
    case Put => Some(u.fields)
    case Patch => Some(MergeFields(if row.None? then map[] else row.value, u.fields))
  }

  function ApplyAll<V>(row: Row<V>, writes: seq<Update<V>>): Row<V>
  {
    if writes == [] then row else Apply(ApplyAll(row, writes[..|writes| - 1]), writes[|writes| - 1])
  }

  predicate HasPut<V>(writes: seq<Update<V>>)
  {
    exists i :: 0 <= i < |writes| && writes[i].kind == Put
  }

  function HostRow<V>(host: Option<Entity<V>>): Row<V>
  {
    if host.None? then None else Some(host.value.fields)
  }

  /** Merges the patched keys into a copy of the row, one after another. */
  method PatchFields<V(==)>(base: Fields<V>, incoming: Fields<V>) returns (merged: Fields<V>)
    ensures merged == MergeFields(base, incoming)
  {
    var todo := incoming.Keys;
    merged := base;
    while todo != {}
      invariant todo <= incoming.Keys && merged.Keys == base.Keys + (incoming.Keys - todo)
      invariant forall k :: k in merged ==>
                  merged[k] == if k !in incoming || k in todo then base[k]
                               else if k !in base then incoming[k] else Merge(base[k], incoming[k])
      decreases todo
    {
      var key :| key in todo;
      var next := MergeFieldValue(if key in base then Some(base[key]) else None, incoming[key]);
      merged := merged[key := next];
      todo := todo - {key};
    }
    assert merged == MergeFields(base, incoming);
  }

  // ----- the stamps of a row

  /** The stamps of a field's leaves. */
  function LeafStamps<V>(f: Field<V>): set<nat>
  {
    match f
    case Leaf(_, _, hlc) => if hlc.Some? then {hlc.value} else {}
    case Map(entries) => set k, t | k in entries && t in LeafStamps(entries[k]) :: t
  }

  /** The stamps below all entries but some. */
  ghost function StampsBut<V>(entries: Fields<V>, todo: set<string>): set<nat>
  {
    set k, t | k in entries && k !in todo && t in LeafStamps(entries[k]) :: t
  }

  lemma StampsButOne<V>(entries: Fields<V>, todo: set<string>, key: string)
    requires key in todo && key in entries
    ensures StampsBut(entries, todo - {key}) == StampsBut(entries, todo) + LeafStamps(entries[key])
  {
    var less, more := StampsBut(entries, todo), StampsBut(entries, todo - {key});
    forall t ensures t in more <==> t in less || t in LeafStamps(entries[key]) {
      if t in LeafStamps(entries[key]) { assert key in entries && key !in todo - {key}; }
    }
  }

  function FieldStamps<V>(fields: Fields<V>): set<nat>
  {
    LeafStamps(Map(fields))
  }

  /** The greatest of a set of stamps, or none. */
  ghost predicate IsLatest(latest: Option<nat>, stamps: set<nat>)
  {
    match latest
    case None => stamps == {}
    case Some(t) => t in stamps && forall s :: s in stamps ==> s <= t
  }

  /** Visits the leaves below a field, keeping the latest stamp met. */
  method Visit<V>(field: Field<V>, latest: Option<nat>, ghost met: set<nat>) returns (latest': Option<nat>)
    requires IsLatest(latest, met)
    ensures IsLatest(latest', met + LeafStamps(field))
    decreases field
  {
    latest' := latest;
    match field
    case Leaf(_, _, hlc) =>
      if hlc.None? {
        assert met + LeafStamps(field) == met;
      } else if latest.None? || hlc.value > latest.value {
        latest' := hlc;
      }
    case Map(entries) =>
      var todo := entries.Keys;
      ghost var seen := met;
      assert StampsBut(entries, entries.Keys) == {};
      while todo != {}
        invariant todo <= entries.Keys && IsLatest(latest', seen)
        invariant seen == met + StampsBut(entries, todo)
        decreases todo
      {
        var key :| key in todo;
        latest' := Visit(entries[key], latest', seen);
        StampsButOne(entries, todo, key);
        seen := seen + LeafStamps(entries[key]);
        todo := todo - {key};
      }
      assert StampsBut(entries, {}) == LeafStamps(field);
  }

  /** The latest stamp among the leaves of a field map. */
  method LatestHlc<V>(fields: Fields<V>) returns (latest: Option<nat>)
    ensures IsLatest(latest, FieldStamps(fields))
  {
    latest := Visit(Map(fields), None, {});
    assert {} + FieldStamps(fields) == FieldStamps(fields);
  }

  /** The stamps one buffered update brings; a delete brings none. */
  function WriteStamps<V>(u: Update<V>): set<nat>
  {
    if u.kind == Delete then {} else FieldStamps(u.fields)
  }

  function AllStamps<V>(writes: seq<Update<V>>): set<nat>
  {
    if writes == [] then {} else AllStamps(writes[..|writes| - 1]) + WriteStamps(writes[|writes| - 1])
  }

  /** The latest stamp of the first write that brings any. */
  ghost predicate IsFirst<V>(first: Option<nat>, writes: seq<Update<V>>)
  {
    match first
    case None => forall i :: 0 <= i < |writes| ==> WriteStamps(writes[i]) == {}
    case Some(_) =>
      exists i :: 0 <= i < |writes| && IsLatest(first, WriteStamps(writes[i]))
                  && forall j :: 0 <= j < i ==> WriteStamps(writes[j]) == {}
  }

  /** Where a row's stamps start: at the host's, or at nothing if it is created here. */
  function HostStamp<V>(host: Option<Entity<V>>, writes: seq<Update<V>>, updated: bool): Option<nat>
  {
    if HasPut(writes) || host.None? then None else if updated then host.value.updatedHlc else host.value.createdHlc
  }

  function AsSet(stamp: Option<nat>): set<nat> { if stamp.None? then {} else {stamp.value} }

  /** The row's stamps: created by the first stamped write unless the host says, updated by the latest. */
  ghost predicate Dated<V>(created: Option<nat>, updated: Option<nat>, created0: Option<nat>, updated0: Option<nat>,
                           writes: seq<Update<V>>)
  {
    && IsLatest(updated, AsSet(updated0) + AllStamps(writes))
    && (if created0.Some? then created == created0 else IsFirst(created, writes))
  }

  /** One more write moves the row's stamps. */
  method Restamp<V>(created: Option<nat>, updated: Option<nat>, u: Update<V>, ghost created0: Option<nat>,
                    ghost updated0: Option<nat>, ghost writes: seq<Update<V>>)
    returns (created': Option<nat>, updated': Option<nat>)
    requires u.kind != Delete && Dated(created, updated, created0, updated0, writes)
    ensures Dated(created', updated', created0, updated0, writes + [u])
  {
    var stamp := LatestHlc(u.fields);
    created', updated' := created, updated;
    if stamp.Some? {
      if updated.None? || stamp.value > updated.value { updated' := stamp; }
      if created.None? { created' := stamp; }
    }
    RestampUpdated(updated, stamp, AsSet(updated0), writes, u);
    if created0.None? { RestampCreated(created, stamp, writes, u); }
  }

  lemma RestampUpdated<V>(updated: Option<nat>, stamp: Option<nat>, base: set<nat>, writes: seq<Update<V>>, u: Update<V>)
    requires IsLatest(updated, base + AllStamps(writes)) && IsLatest(stamp, WriteStamps(u))
    ensures IsLatest(if stamp.Some? && (updated.None? || stamp.value > updated.value) then stamp else updated,
                     base + AllStamps(writes + [u]))
  {
    assert (writes + [u])[..|writes|] == writes;
    assert base + AllStamps(writes + [u]) == base + AllStamps(writes) + WriteStamps(u);
  }

  lemma RestampCreated<V>(created: Option<nat>, stamp: Option<nat>, writes: seq<Update<V>>, u: Update<V>)
    requires IsFirst(created, writes) && IsLatest(stamp, WriteStamps(u))
    ensures IsFirst(if created.None? then stamp else created, writes + [u])
  {
    var all := writes + [u];
    assert all[|writes|] == u && forall i :: 0 <= i < |writes| ==> all[i] == writes[i];
    if created.Some? {
      var i :| 0 <= i < |writes| && IsLatest(created, WriteStamps(writes[i]))
               && forall j :: 0 <= j < i ==> WriteStamps(writes[j]) == {};
      assert IsLatest(created, WriteStamps(all[i]));
    } else if stamp.Some? {
      assert IsLatest(stamp, WriteStamps(all[|writes|]));
    }
  }

  lemma DeleteKeepsDates<V>(created: Option<nat>, updated: Option<nat>, u: Update<V>, created0: Option<nat>,
                            updated0: Option<nat>, writes: seq<Update<V>>)
    requires u.kind == Delete && Dated(created, updated, created0, updated0, writes)
    ensures Dated(created, updated, created0, updated0, writes + [u])
  {
    RestampUpdated(updated, None, AsSet(updated0), writes, u);
    if created0.None? { RestampCreated(created, None, writes, u); }
  }

  /** Whether one of the writes is a put. */
  method FindPut<V>(writes: seq<Update<V>>) returns (found: bool)
    ensures found == HasPut(writes)
  {
    found := false;
    for i := 0 to |writes|
      invariant found <==> exists j :: 0 <= j < i && writes[j].kind == Put
    {
      found := found || writes[i].kind == Put;
    }
  }

  /** Folds the writes into a row and its stamps. */
  method FoldWrites<V(==)>(writes: seq<Update<V>>, start: Row<V>, created0: Option<nat>, updated0: Option<nat>)
    returns (row: Row<V>, created: Option<nat>, updated: Option<nat>)
    ensures row == ApplyAll(start, writes) && Dated(created, updated, created0, updated0, writes)
  {
    row, created, updated := start, created0, updated0;
    var i := 0;
    assert AsSet(updated0) + AllStamps(writes[..0]) == AsSet(updated0);
    while i < |writes|
      invariant 0 <= i <= |writes|
      invariant row == ApplyAll(start, writes[..i]) && Dated(created, updated, created0, updated0, writes[..i])
    {
      var u := writes[i];
      assert writes[..i + 1] == writes[..i] + [u] && writes[..i + 1][..i] == writes[..i];
      if u.kind == Delete {
        row := None;
        DeleteKeepsDates(created, updated, u, created0, updated0, writes[..i]);
      } else {
        if u.kind == Put {
          row := Some(u.fields);
        } else {
          var merged := PatchFields(if row.None? then map[] else row.value, u.fields);
          row := Some(merged);
        }
        created, updated := Restamp(created, updated, u, created0, updated0, writes[..i]);
      }
      i := i + 1;
    }
    assert writes[..i] == writes;
  }

  /** Reads one id: the host's view, with this invocation's writes to that id applied over it. */
  method ReadOverlay<V(==)>(id: string, writes: seq<Update<V>>, typeOf: Option<string>, host: Option<Entity<V>>)
    returns (r: Option<Entity<V>>)
    // Untouched ids pass the host's view through.
    ensures writes == [] ==> r == host
    // Without the host's row, only a put can make one.
    ensures writes != [] && host.None? && !HasPut(writes) ==> r == None
    // Otherwise the read is the fold of the writes over the host's row.
    ensures host.Some? || HasPut(writes) ==> HostRow(r) == ApplyAll(HostRow(host), writes)
    // A row deleted last is gone; behind an earlier delete nothing of before shows.
    ensures writes != [] && writes[|writes| - 1].kind == Delete ==> r == None
    ensures host.Some? || HasPut(writes) ==>
              forall i :: 0 <= i < |writes| && writes[i].kind == Delete ==> HostRow(r) == ApplyAll(None, writes[i + 1..])
    ensures writes != [] && r.Some? ==>
              && r.value.id == id
              && r.value.lastGsn == (if HasPut(writes) || host.None? then 0 else host.value.lastGsn)
              && r.value.subjectType == if typeOf.Some? then typeOf.value
                                        else if HasPut(writes) || host.None? then "" else host.value.subjectType
    ensures writes != [] && r.Some? ==>
              Dated(r.value.createdHlc, r.value.updatedHlc, HostStamp(host, writes, false), HostStamp(host, writes, true),
                    writes)
  {
    if |writes| == 0 { return host; }
    var firstPut := FindPut(writes);
    if !firstPut && writes[|writes| - 1].kind == Delete { return None; }
    if !firstPut && host.None? { return None; }

    var start: Row<V> := if firstPut then Some(map[]) else Some(host.value.fields);
    var createdHlc := if firstPut then None else host.value.createdHlc;
    var updatedHlc := if firstPut then None else host.value.updatedHlc;
    var row, created, updated := FoldWrites(writes, start, createdHlc, updatedHlc);
    if firstPut { HostIndependent(start, HostRow(host), writes); }
    forall i | 0 <= i < |writes| && writes[i].kind == Delete ensures row == ApplyAll(None, writes[i + 1..]) {
      DeleteForgets(start, writes, i);
    }
    if row.None? { return None; }
    var hostType := if firstPut then "" else host.value.subjectType;
    r := Some(Entity(id, if typeOf.Some? then typeOf.value else hostType, row.value, created, updated,
                     if firstPut then 0 else host.value.lastGsn));
  }

  /** Once a put is buffered, nothing that was there before matters. */
  lemma {:induction false} HostIndependent<V>(a: Row<V>, b: Row<V>, writes: seq<Update<V>>)
    requires HasPut(writes)
    ensures ApplyAll(a, writes) == ApplyAll(b, writes)
    decreases |writes|
  {
    var init, last := writes[..|writes| - 1], writes[|writes| - 1];
    if last.kind == Patch {
      var i :| 0 <= i < |writes| && writes[i].kind == Put;
      assert init[i].kind == Put;
      HostIndependent(a, b, init);
    }
  }

  /** A delete forgets everything in front of it. */
  lemma {:induction false} DeleteForgets<V>(row: Row<V>, writes: seq<Update<V>>, i: nat)
    requires i < |writes| && writes[i].kind == Delete
    ensures ApplyAll(row, writes) == ApplyAll(None, writes[i + 1..])
    decreases |writes|
  {
    var init, n := writes[..|writes| - 1], |writes|;
    if i < n - 1 {
      DeleteForgets(row, init, i);
      assert init[i + 1..] == writes[i + 1..][..n - i - 2];
      assert writes[i + 1..][n - i - 2] == writes[n - 1];
    }
  }

  /** The fields that some updates name. */
  function Named<V>(writes: seq<Update<V>>): set<string>
  {
    if writes == [] then {} else Named(writes[..|writes| - 1]) + writes[|writes| - 1].fields.Keys
  }

  /** Patches on no row make one with exactly the fields they name. */
  lemma {:induction false} PatchesMakeRow<V>(patches: seq<Update<V>>)
    requires forall i :: 0 <= i < |patches| ==> patches[i].kind == Patch
    ensures patches == [] ==> ApplyAll<V>(None, patches) == None
    ensures patches != [] ==> ApplyAll(None, patches).Some? && ApplyAll(None, patches).value.Keys == Named(patches)
    decreases |patches|
  {
    if patches != [] { PatchesMakeRow(patches[..|patches| - 1]); }
  }

  /** A put leaves exactly its own fields, whatever was there. */
  lemma PutReplaces<V>(row: Row<V>, writes: seq<Update<V>>, put: Update<V>)
    requires put.kind == Put
    ensures ApplyAll(row, writes + [put]) == Some(put.fields)
  {
    ReadAdvances(row, writes, put);
  }

  /** One more update advances the read by one step. */
  lemma ReadAdvances<V>(row: Row<V>, writes: seq<Update<V>>, u: Update<V>)
    ensures ApplyAll(row, writes + [u]) == Apply(ApplyAll(row, writes), u)
  {
    assert (writes + [u])[..|writes|] == writes;
  }

  /** Writes to other ids do not show: the per-id list is the buffer restricted to the id. */
  function For<V>(id: string, buffer: seq<Update<V>>): seq<Update<V>>
  {
    if buffer == [] then []
    else For(id, buffer[..|buffer| - 1]) +
         if buffer[|buffer| - 1].subjectId == id then [buffer[|buffer| - 1]] else []
  }

  /** A whole store, each row on its own. */
  function Stored<V>(store: map<string, Fields<V>>, id: string): Row<V>
  {
    if id in store then Some(store[id]) else None
  }

  function Write<V>(store: map<string, Fields<V>>, u: Update<V>): map<string, Fields<V>>
  {
    match Apply(Stored(store, u.subjectId), u)
    case None => store - {u.subjectId}
    case Some(fields) => store[u.subjectId := fields]
  }

  function WriteAll<V>(store: map<string, Fields<V>>, buffer: seq<Update<V>>): map<string, Fields<V>>
  {
    if buffer == [] then store else Write(WriteAll(store, buffer[..|buffer| - 1]), buffer[|buffer| - 1])
  }

  /** Reading an id through its own writes is reading it after the whole buffer was stored. */
  lemma {:induction false} ReadIsRestriction<V>(store: map<string, Fields<V>>, buffer: seq<Update<V>>, id: string)
    ensures ApplyAll(Stored(store, id), For(id, buffer)) == Stored(WriteAll(store, buffer), id)
    decreases |buffer|
  {
    if buffer != [] {
      var init, last := buffer[..|buffer| - 1], buffer[|buffer| - 1];
      ReadIsRestriction(store, init, id);
      if last.subjectId == id {
        ReadAdvances(Stored(store, id), For(id, init), last);
      } else {
        assert For(id, buffer) == For(id, init);
      }
    }
  }

  // ----- read your last write

  /** Every leaf of an update carries its stamp. */
  ghost predicate StampedAt<V>(u: Update<V>, t: nat)
  {
    forall k :: k in u.fields && u.fields[k].Leaf? ==> u.fields[k].hlc == Some(t)
  }

  /** The last value written to a field by a put and the patches behind it. */
  function LastWritten<V>(put: Update<V>, patches: seq<Update<V>>, key: string): Option<Field<V>>
  {
    if patches == [] then if key in put.fields then Some(put.fields[key]) else None
    else
      var last := patches[|patches| - 1];
      if key in last.fields then Some(last.fields[key]) else LastWritten(put, patches[..|patches| - 1], key)
  }

  ghost predicate Increasing(ts: seq<nat>)
  {
    forall i :: 0 <= i < |ts| - 1 ==> ts[i] < ts[i + 1]
  }

  /** Updates on a created row, each with its stamp: `ts[0]` for the put, the rest for the patches. */
  ghost predicate Written<V>(put: Update<V>, patches: seq<Update<V>>, ts: seq<nat>)
  {
    && put.kind == Put && |ts| == |patches| + 1 && StampedAt(put, ts[0])
    && forall i :: 0 <= i < |patches| ==> patches[i].kind == Patch && StampedAt(patches[i], ts[i + 1])
  }

  /** No leaf of the row is stamped later than the last update. */
  ghost predicate Bounded<V>(row: Row<V>, t: nat)
  {
    row.Some? && forall k :: k in row.value && row.value[k].Leaf? ==> Stamp(row.value[k]) <= t
  }

  /** A later patch wins every field it writes as a leaf and keeps the fields it does not name. */
  lemma LaterPatchWins<V>(row: Row<V>, u: Update<V>, t: nat, t': nat)
    requires Bounded(row, t) && u.kind == Patch && StampedAt(u, t') && t < t'
    ensures Bounded(Apply(row, u), t')
    ensures forall k :: k in u.fields && u.fields[k].Leaf? ==>
              k in Apply(row, u).value && Apply(row, u).value[k] == u.fields[k]
    ensures forall k :: k in row.value && k !in u.fields ==>
              k in Apply(row, u).value && Apply(row, u).value[k] == row.value[k]
  {
    var base, merged := row.value, Apply(row, u).value;
    forall k | k in merged
      ensures k !in u.fields ==> k in base && merged[k] == base[k]
      ensures k in u.fields && u.fields[k].Leaf? ==> merged[k] == u.fields[k]
      ensures k in u.fields && u.fields[k].Map? ==> merged[k].Map?
    {
      if k in u.fields && k in base {
        assert merged[k] == Merge(base[k], u.fields[k]);
      }
    }
  }

  lemma {:induction false} RowBounded<V>(row: Row<V>, put: Update<V>, patches: seq<Update<V>>, ts: seq<nat>)
    requires Written(put, patches, ts) && Increasing(ts)
    ensures Bounded(ApplyAll(row, [put] + patches), ts[|patches|])
    decreases |patches|
  {
    var writes := [put] + patches;
    if patches == [] {
      assert writes[..0] == [];
      assert ApplyAll(row, writes) == Some(put.fields);
    } else {
      var init, n := patches[..|patches| - 1], |patches|;
      assert writes[..n] == [put] + init;
      RowBounded(row, put, init, ts[..n]);
      LaterPatchWins(ApplyAll(row, [put] + init), patches[n - 1], ts[n - 1], ts[n]);
    }
  }

  /** With ascending stamps, a leaf reads back as the last value written to its field. */
  lemma {:induction false} ReadYourLastWrite<V>(row: Row<V>, put: Update<V>, patches: seq<Update<V>>,
                                                ts: seq<nat>, key: string)
    requires Written(put, patches, ts) && Increasing(ts)
    requires LastWritten(put, patches, key).Some? && LastWritten(put, patches, key).value.Leaf?
    ensures var r := ApplyAll(row, [put] + patches);
            r.Some? && key in r.value && r.value[key] == LastWritten(put, patches, key).value
    decreases |patches|
  {
    var writes := [put] + patches;
    if patches == [] {
      assert writes[..0] == [];
      assert ApplyAll(row, writes) == Some(put.fields);
    } else {
      var init, n := patches[..|patches| - 1], |patches|;
      assert writes[..n] == [put] + init;
      RowBounded(row, put, init, ts[..n]);
      LaterPatchWins(ApplyAll(row, [put] + init), patches[n - 1], ts[n - 1], ts[n]);
      if key !in patches[n - 1].fields {
        ReadYourLastWrite(row, put, init, ts[..n], key);
      }
    }
  }

  // ----- the packed clock the stamps come from

  datatype Clock = Clock(l: nat, c: nat)

  const COUNTER: nat := 0x1_0000

  /** `l << 16 | c`, with the counter masked to 16 bits. */
  function Pack(k: Clock): nat { k.l * COUNTER + k.c % COUNTER }

  function LocalEvent(k: Clock, now: nat): Clock
  {
    if now > k.l then Clock(now, 0) else Clock(k.l, (k.c + 1) % COUNTER)
  }

  /** A tick moves the packed stamp forward exactly when time advanced or the counter did not wrap. */
  lemma TickForward(k: Clock, now: nat)
    requires k.c < COUNTER
    ensures LocalEvent(k, now).c < COUNTER
    ensures Pack(LocalEvent(k, now)) > Pack(k) <==> now > k.l || k.c + 1 < COUNTER
  {
    if now > k.l {
      assert now * COUNTER >= (k.l + 1) * COUNTER;
    }
  }

  /** Stamps drawn at successive wall-clock readings. */
  function Stamps(k: Clock, nows: seq<nat>): (ts: seq<nat>)
    ensures |ts| == |nows|
    decreases |nows|
  {
    if nows == [] then [] else [Pack(LocalEvent(k, nows[0]))] + Stamps(LocalEvent(k, nows[0]), nows[1..])
  }

  /** No logical millisecond hands out more than 65,536 stamps; `used` counts those of the current one. */
  predicate Roomy(l: nat, used: nat, nows: seq<nat>)
    decreases |nows|
  {
    nows == [] ||
    (if nows[0] > l then Roomy(nows[0], 1, nows[1..]) else used < COUNTER && Roomy(l, used + 1, nows[1..]))
  }

  /** Stamps ascend for as long as, and only if, no millisecond runs out of counters. */
  lemma {:induction false} StampsAscend(k: Clock, nows: seq<nat>)
    requires k.c < COUNTER
    ensures Increasing([Pack(k)] + Stamps(k, nows)) <==> Roomy(k.l, k.c + 1, nows)
    decreases |nows|
  {
    if nows != [] {
      var k', rest := LocalEvent(k, nows[0]), nows[1..];
      TickForward(k, nows[0]);
      StampsAscend(k', rest);
      IncreasingCons(Pack(k), [Pack(k')] + Stamps(k', rest));
      assert Stamps(k, nows) == [Pack(k')] + Stamps(k', rest);
      if nows[0] <= k.l && k.c + 1 < COUNTER {
        assert (k.c + 1) % COUNTER == k.c + 1;
      }
    }
  }

  /** The 65,537th stamp of a millisecond falls back to the first. */
  lemma WrappedCounter()
    ensures var k := Clock(5, 65535);
            && Stamps(k, [5]) == [Pack(Clock(5, 0))] && Pack(Clock(5, 0)) < Pack(k)
            && !Increasing([Pack(k)] + Stamps(k, [5]))
  {
    var k := Clock(5, 65535);
    assert [5][1..] == [];
    TickForward(k, 5);
    assert Stamps(k, [5]) == [Pack(LocalEvent(k, 5))];
    IncreasingCons(Pack(k), Stamps(k, [5]));
  }

  lemma IncreasingCons(x: nat, ts: seq<nat>)
    requires ts != []
    ensures Increasing([x] + ts) <==> x < ts[0] && Increasing(ts)
  {
    var all := [x] + ts;
    if Increasing(all) {
      assert all[0] < all[1];
      forall i | 0 <= i < |ts| - 1 ensures ts[i] < ts[i + 1] {
        assert all[i + 1] < all[i + 2];
      }
    }
  }

  lemma {:induction false} IncreasingFar(ts: seq<nat>, i: nat, j: nat)
    requires Increasing(ts) && i < j < |ts|
    ensures ts[i] < ts[j]
    decreases j
  {
    if i < j - 1 { IncreasingFar(ts, i, j - 1); }
  }

  /** The stamps of some of the draws. */
  ghost function Drawn(k: Clock, nows: seq<nat>, at: seq<nat>): (ts: seq<nat>)
    requires forall i :: 0 <= i < |at| ==> at[i] < |nows|
    ensures |ts| == |at|
  {
    seq(|at|, i requires 0 <= i < |at| => Stamps(k, nows)[at[i]])
  }

  /**
   * A row created by this invocation, written with stamps drawn from its clock
   * (`at` says which draws went to this row), reads back its last writes as
   * long as no millisecond runs out of counters.
   */
  lemma ReadBackOnClock<V>(k: Clock, nows: seq<nat>, at: seq<nat>, row: Row<V>,
                           put: Update<V>, patches: seq<Update<V>>, key: string)
    requires k.c < COUNTER && Roomy(k.l, k.c + 1, nows)
    requires forall i :: 0 <= i < |at| ==> at[i] < |nows|
    requires Increasing(at)
    requires Written(put, patches, Drawn(k, nows, at))
    requires LastWritten(put, patches, key).Some? && LastWritten(put, patches, key).value.Leaf?
    ensures var r := ApplyAll(row, [put] + patches);
            r.Some? && key in r.value && r.value[key] == LastWritten(put, patches, key).value
  {
    var ts := Drawn(k, nows, at);
    var all := [Pack(k)] + Stamps(k, nows);
    StampsAscend(k, nows);
    forall i | 0 <= i < |ts| - 1 ensures ts[i] < ts[i + 1] {
      assert at[i] < at[i + 1];
      IncreasingFar(all, at[i] + 1, at[i + 1] + 1);
    }
    ReadYourLastWrite(row, put, patches, ts, key);
  }
}
