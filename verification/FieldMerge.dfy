/** The recursive last-writer-wins merge of field values. */
module FieldMerge {
  import opened Ids
  import opened Options

  /** A leaf with its stamps, or a map merged key by key. */
  datatype Field<V> =
    | Leaf(value: V, updateId: string, hlc: Option<nat>)
    | Map(entries: map<string, Field<V>>)

  /** A missing stamp compares as zero. */
  function Stamp<V>(f: Field<V>): nat
    requires f.Leaf?
  {
    if f.hlc.None? then 0 else f.hlc.value
  }

  function MergeLeaf<V>(existing: Field<V>, incoming: Field<V>): (r: Field<V>)
    requires existing.Leaf? && incoming.Leaf?
    ensures r == existing || r == incoming
  {
    if Stamp(existing) < Stamp(incoming) then incoming
    else if Stamp(existing) > Stamp(incoming) then existing
    else if !Less(incoming.updateId, existing.updateId) then incoming else existing
  }

  /** Incoming over existing: later leaf wins, maps merge by key, a change of kind replaces. */
  function Merge<V>(existing: Field<V>, incoming: Field<V>): Field<V>
    decreases incoming
  {
    match (existing, incoming)
    case (Leaf(_, _, _), Leaf(_, _, _)) => MergeLeaf(existing, incoming)
    case (Map(a), Map(b)) =>
      Map(map k | k in a.Keys + b.Keys ::
            if k !in b then a[k] else if k !in a then b[k] else Merge(a[k], b[k]))
    case _ => incoming
  }

  /** The merge as it is computed: copy the existing map, overwrite the keys that change. */
  method MergeFieldValue<V(==)>(existing: Option<Field<V>>, incoming: Field<V>) returns (r: Field<V>)
    ensures r == if existing.None? then incoming else Merge(existing.value, incoming)
    decreases incoming
  {
    if existing.None? { return incoming; }
    var e := existing.value;
    if e.Leaf? || incoming.Leaf? {
      return if e.Map? || incoming.Map? then incoming else MergeLeaf(e, incoming);
    }
    var a, b := e.entries, incoming.entries;
    var merged, todo := a, b.Keys;
    while todo != {}
      invariant todo <= b.Keys && merged.Keys == a.Keys + (b.Keys - todo)
      invariant forall k :: k in merged ==>
                  merged[k] == if k !in b || k in todo then a[k] else if k !in a then b[k] else Merge(a[k], b[k])
      decreases todo
    {
      var key :| key in todo;
      var previous := if key in merged then Some(merged[key]) else None;
      var next := MergeFieldValue(previous, b[key]);
      if previous != Some(next) { merged := merged[key := next]; }
      todo := todo - {key};
    }
    r := Map(merged);
    assert r.entries == Merge(e, incoming).entries;
  }

  // ----- what the merge picks

  /** The greater in stamp and then update id. */
  predicate Greater<V>(a: Field<V>, b: Field<V>)
    requires a.Leaf? && b.Leaf?
  {
    Stamp(a) > Stamp(b) || (Stamp(a) == Stamp(b) && Less(b.updateId, a.updateId))
  }

  /** The greater leaf wins in both argument orders. */
  lemma GreaterWins<V>(a: Field<V>, b: Field<V>)
    requires a.Leaf? && b.Leaf? && Greater(a, b)
    ensures Merge(a, b) == a && Merge(b, a) == a
  {
    LessTrichotomy(a.updateId, b.updateId);
  }

  /** What stands at a path of map keys. */
  function At<V>(f: Field<V>, path: seq<string>): Option<Field<V>>
    decreases |path|
  {
    if path == [] then Some(f)
    else if f.Map? && path[0] in f.entries then At(f.entries[path[0]], path[1..])
    else None
  }

  /** Two leaves that meet, or a change of kind. */
  function Picked<V>(a: Field<V>, b: Field<V>): Field<V>
  {
    if a.Leaf? && b.Leaf? && Greater(a, b) then a else b
  }

  /**
   * At every path where both sides have something other than two maps, the merge
   * has the greater leaf, or the incoming value on a change of kind or equal rank.
   */
  lemma {:induction false} MergeAtPath<V>(a: Field<V>, b: Field<V>, path: seq<string>)
    requires At(a, path).Some? && At(b, path).Some?
    requires At(a, path).value.Leaf? || At(b, path).value.Leaf?
    ensures At(Merge(a, b), path) == Some(Picked(At(a, path).value, At(b, path).value))
    decreases |path|
  {
    if path == [] {
      if a.Leaf? && b.Leaf? { LessTrichotomy(a.updateId, b.updateId); }
    } else {
      MergeAtPath(a.entries[path[0]], b.entries[path[0]], path[1..]);
    }
  }

  /** A key that one of two merged maps lacks keeps the other's value. */
  lemma {:induction false} MergeKeepsOthers<V>(a: Field<V>, b: Field<V>, path: seq<string>, key: string)
    requires At(a, path).Some? && At(a, path).value.Map? && At(b, path).Some? && At(b, path).value.Map?
    requires key in At(a, path).value.entries <==> key !in At(b, path).value.entries
    ensures At(Merge(a, b), path + [key])
            == if key in At(a, path).value.entries then At(a, path + [key]) else At(b, path + [key])
    decreases |path|
  {
    if path == [] {
      assert ([] + [key])[0] == key && ([] + [key])[1..] == [];
    } else {
      assert (path + [key])[0] == path[0] && (path + [key])[1..] == path[1..] + [key];
      MergeKeepsOthers(a.entries[path[0]], b.entries[path[0]], path[1..], key);
    }
  }

  /** Same kinds wherever both are present, and equal stamps only on equal leaves. */
  ghost predicate Agree<V>(a: Field<V>, b: Field<V>)
    decreases a
  {
    match (a, b)
    case (Leaf(_, _, _), Leaf(_, _, _)) => Stamp(a) == Stamp(b) && a.updateId == b.updateId ==> a == b
    case (Map(x), Map(y)) => forall k :: k in x && k in y ==> Agree(x[k], y[k])
    case _ => false
  }

  lemma {:induction false} AgreeSymmetric<V>(a: Field<V>, b: Field<V>)
    requires Agree(a, b)
    ensures Agree(b, a)
    decreases a
  {
    if a.Map? {
      forall k | k in a.entries && k in b.entries ensures Agree(b.entries[k], a.entries[k]) {
        AgreeSymmetric(a.entries[k], b.entries[k]);
      }
    }
  }

  lemma {:induction false} Idempotent<V>(a: Field<V>)
    ensures Merge(a, a) == a
    decreases a
  {
    if a.Map? {
      forall k | k in a.entries ensures Merge(a.entries[k], a.entries[k]) == a.entries[k] {
        Idempotent(a.entries[k]);
      }
    } else {
      LessTrichotomy(a.updateId, a.updateId);
    }
  }

  lemma {:induction false} Commutative<V>(a: Field<V>, b: Field<V>)
    requires Agree(a, b)
    ensures Merge(a, b) == Merge(b, a)
    decreases a
  {
    if a.Map? {
      forall k | k in a.entries && k in b.entries
        ensures Merge(a.entries[k], b.entries[k]) == Merge(b.entries[k], a.entries[k])
      {
        Commutative(a.entries[k], b.entries[k]);
      }
      assert Merge(a, b).entries == Merge(b, a).entries;
    } else {
      LessTrichotomy(a.updateId, b.updateId);
    }
  }

  /** Agreement is not just enough for commutativity, it is exactly it. */
  lemma {:induction false} CommutativeExactly<V>(a: Field<V>, b: Field<V>)
    ensures Merge(a, b) == Merge(b, a) <==> Agree(a, b)
    decreases a
  {
    if Agree(a, b) {
      Commutative(a, b);
    } else if a.Map? && b.Map? {
      var k :| k in a.entries && k in b.entries && !Agree(a.entries[k], b.entries[k]);
      CommutativeExactly(a.entries[k], b.entries[k]);
      assert Merge(a, b).entries[k] != Merge(b, a).entries[k];
    } else if a.Leaf? && b.Leaf? {
      LessTrichotomy(a.updateId, a.updateId);
    }
  }

  /** Two leaves with the same stamps and different values: whoever is merged last wins. */
  lemma EqualStampsDiverge<V>(v: V, w: V, updateId: string, hlc: Option<nat>)
    requires v != w
    ensures Merge(Leaf(v, updateId, hlc), Leaf(w, updateId, hlc)) == Leaf(w, updateId, hlc)
    ensures Merge(Leaf(w, updateId, hlc), Leaf(v, updateId, hlc)) == Leaf(v, updateId, hlc)
  {
    LessTrichotomy(updateId, updateId);
  }

  /** A merge agrees with whatever both its sides agree with. */
  lemma {:induction false} MergeAgrees<V>(a: Field<V>, b: Field<V>, c: Field<V>)
    requires Agree(a, c) && Agree(b, c)
    ensures Agree(Merge(a, b), c)
    decreases b
  {
    if b.Map? {
      var m := Merge(a, b);
      forall k | k in m.entries && k in c.entries ensures Agree(m.entries[k], c.entries[k]) {
        if k in a.entries && k in b.entries {
          MergeAgrees(a.entries[k], b.entries[k], c.entries[k]);
        }
      }
    }
  }

  lemma LeafAssociative<V>(a: Field<V>, b: Field<V>, c: Field<V>)
    requires a.Leaf? && b.Leaf? && c.Leaf?
    ensures MergeLeaf(MergeLeaf(a, b), c) == MergeLeaf(a, MergeLeaf(b, c))
  {
    LessTrichotomy(a.updateId, b.updateId);
    LessTrichotomy(b.updateId, c.updateId);
    LessTrichotomy(a.updateId, c.updateId);
    if Less(c.updateId, b.updateId) && Less(b.updateId, a.updateId) {
      LessTransitive(c.updateId, b.updateId, a.updateId);
    }
    if Less(a.updateId, b.updateId) && Less(b.updateId, c.updateId) {
      LessTransitive(a.updateId, b.updateId, c.updateId);
    }
  }

  /** Same kinds, all the way down, wherever two are present. */
  lemma {:induction false} Associative<V>(a: Field<V>, b: Field<V>, c: Field<V>)
    requires Agree(a, b) && Agree(b, c) && Agree(a, c)
    ensures Merge(Merge(a, b), c) == Merge(a, Merge(b, c))
    decreases b
  {
    if b.Leaf? {
      LeafAssociative(a, b, c);
    } else {
      forall k | k in a.entries && k in b.entries && k in c.entries
        ensures Merge(Merge(a.entries[k], b.entries[k]), c.entries[k])
                == Merge(a.entries[k], Merge(b.entries[k], c.entries[k]))
      {
        Associative(a.entries[k], b.entries[k], c.entries[k]);
      }
      assert Merge(Merge(a, b), c).entries == Merge(a, Merge(b, c)).entries;
    }
  }

  // ----- folding patches

  /** Patches merged one after another over a base. */
  function MergeAll<V>(base: Field<V>, patches: seq<Field<V>>): Field<V>
  {
    if patches == [] then base
    else Merge(MergeAll(base, patches[..|patches| - 1]), patches[|patches| - 1])
  }

  /** All values of a list agree with each other and with the base. */
  ghost predicate Coherent<V>(base: Field<V>, patches: seq<Field<V>>)
  {
    && Agree(base, base)
    && (forall i :: 0 <= i < |patches| ==> Agree(base, patches[i]) && Agree(patches[i], base))
    && (forall i, j :: 0 <= i < |patches| && 0 <= j < |patches| ==> Agree(patches[i], patches[j]))
  }

  lemma {:induction false} MergeAllAgrees<V>(base: Field<V>, patches: seq<Field<V>>, c: Field<V>)
    requires Agree(base, c) && forall i :: 0 <= i < |patches| ==> Agree(patches[i], c)
    ensures Agree(MergeAll(base, patches), c)
    decreases |patches|
  {
    if patches != [] {
      var init, last := patches[..|patches| - 1], patches[|patches| - 1];
      MergeAllAgrees(base, init, c);
      MergeAgrees(MergeAll(base, init), last, c);
    }
  }

  /** Once merged, a patch changes nothing any more. */
  lemma {:induction false} Absorbs<V>(base: Field<V>, patches: seq<Field<V>>, x: Field<V>)
    requires Coherent(base, patches) && (x == base || x in patches)
    ensures Merge(MergeAll(base, patches), x) == MergeAll(base, patches)
    decreases |patches|
  {
    if patches == [] {
      Idempotent(base);
    } else {
      var init, last := patches[..|patches| - 1], patches[|patches| - 1];
      var m := MergeAll(base, init);
      MergeAllAgrees(base, init, last);
      MergeAllAgrees(base, init, x);
      assert Agree(last, x) && Agree(x, last);
      Associative(m, last, x);
      if x == last {
        Idempotent(last);
      } else {
        assert x == base || x in init;
        Absorbs(base, init, x);
        Commutative(last, x);
        Associative(m, x, last);
      }
    }
  }

  /** A value that absorbs the base and every patch absorbs their merge. */
  lemma {:induction false} AbsorbsAll<V>(f: Field<V>, base: Field<V>, patches: seq<Field<V>>)
    requires Coherent(base, patches)
    requires Agree(f, base) && Merge(f, base) == f
    requires forall i :: 0 <= i < |patches| ==> Agree(f, patches[i]) && Merge(f, patches[i]) == f
    ensures Merge(f, MergeAll(base, patches)) == f
    decreases |patches|
  {
    if patches != [] {
      var init, last := patches[..|patches| - 1], patches[|patches| - 1];
      var m := MergeAll(base, init);
      AbsorbsAll(f, base, init);
      MergeAllAgrees(base, init, last);
      AgreeWithMerge(f, base, init);
      Associative(f, m, last);
    }
  }

  lemma AgreeWithMerge<V>(f: Field<V>, base: Field<V>, patches: seq<Field<V>>)
    requires Agree(f, base) && forall i :: 0 <= i < |patches| ==> Agree(f, patches[i])
    ensures Agree(f, MergeAll(base, patches))
  {
    AgreeSymmetric(f, base);
    forall i | 0 <= i < |patches| ensures Agree(patches[i], f) {
      AgreeSymmetric(f, patches[i]);
    }
    MergeAllAgrees(base, patches, f);
    AgreeSymmetric(MergeAll(base, patches), f);
  }

  /** Any order and any repetition of the same patches gives the same value. */
  lemma PatchesConverge<V>(base: Field<V>, ps: seq<Field<V>>, qs: seq<Field<V>>)
    requires Coherent(base, ps) && Coherent(base, qs)
    requires forall p :: p in ps <==> p in qs
    ensures MergeAll(base, ps) == MergeAll(base, qs)
  {
    var f, g := MergeAll(base, ps), MergeAll(base, qs);
    AbsorbsOther(base, ps, qs);
    AbsorbsOther(base, qs, ps);
    forall i | 0 <= i < |ps| ensures Agree(g, ps[i]) {
      assert ps[i] in qs;
      MergeAllAgrees(base, qs, ps[i]);
    }
    MergeAllAgrees(base, qs, base);
    AgreeWithMerge(g, base, ps);
    Commutative(g, f);
  }

  lemma AbsorbsOther<V>(base: Field<V>, ps: seq<Field<V>>, qs: seq<Field<V>>)
    requires Coherent(base, ps) && Coherent(base, qs)
    requires forall q :: q in qs ==> q in ps
    ensures Merge(MergeAll(base, ps), MergeAll(base, qs)) == MergeAll(base, ps)
  {
    var f := MergeAll(base, ps);
    MergeAllAgrees(base, ps, base);
    Absorbs(base, ps, base);
    forall i | 0 <= i < |qs| ensures Agree(f, qs[i]) && Merge(f, qs[i]) == f {
      assert qs[i] in ps;
      MergeAllAgrees(base, ps, qs[i]);
      Absorbs(base, ps, qs[i]);
    }
    AbsorbsAll(f, base, qs);
  }
}
