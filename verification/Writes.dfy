/**
 * The write surface of one invocation: a buffer of updates, the indexes derived
 * from it, the membership guard, and the single commit that seals it.
 */
module Writes {
  import opened Options
  import opened FieldMerge
  import opened Overlay
  import opened WriteValues
  import Rosters

  // ----- the membership index

  /** Membership row to its group and its entity, and entity to the groups it is filed into. */
  datatype Memberships = Memberships(group: map<string, string>, entity: map<string, string>,
                                     groups: map<string, set<string>>)
  {
    function GroupsOf(e: string): set<string> { if e in groups then groups[e] else {} }

    function AddGroup(e: string, g: string): Memberships { this.(groups := groups[e := GroupsOf(e) + {g}]) }

    function RemoveGroup(e: string, g: string): Memberships
    {
      if e in groups then this.(groups := groups[e := groups[e] - {g}]) else this
    }
  }

  /** What one update does to the membership index. */
  function Indexed(m: Memberships, u: Write): Memberships
  {
    var g, e := StringField(u.fields, "group_id"), StringField(u.fields, "entity_id");
    match u.subjectType
    case "entityGroup" =>
      if u.kind == Delete then
        if u.subjectId in m.group && u.subjectId in m.entity
        then m.RemoveGroup(m.entity[u.subjectId], m.group[u.subjectId]) else m
      else if g.None? || e.None? then m
      else
        m.(group := m.group[u.subjectId := g.value], entity := m.entity[u.subjectId := e.value])
         .AddGroup(e.value, g.value)
    case "group" => if u.kind == Delete then m else m.AddGroup(u.subjectId, u.subjectId)
    case "groupMember" => if u.kind == Delete || g.None? then m else m.AddGroup(u.subjectId, g.value)
    case _ => m
  }

  /** The entity and group that an update files, if it files any. */
  function Files(u: Write): Option<(string, string)>
  {
    var g, e := StringField(u.fields, "group_id"), StringField(u.fields, "entity_id");
    if u.kind == Delete then None
    else if u.subjectType == "entityGroup" && g.Some? && e.Some? then Some((e.value, g.value))
    else if u.subjectType == "group" then Some((u.subjectId, u.subjectId))
    else if u.subjectType == "groupMember" && g.Some? then Some((u.subjectId, g.value))
    else None
  }

  /** The entity and group that a delete of a known membership row takes away. */
  function Unfiles(m: Memberships, u: Write): Option<(string, string)>
  {
    if u.subjectType == "entityGroup" && u.kind == Delete && u.subjectId in m.group && u.subjectId in m.entity
    then Some((m.entity[u.subjectId], m.group[u.subjectId])) else None
  }

  /**
   * An update adds the pair it files and takes away the pair it unfiles; every
   * other pair is indexed as before.
   */
  lemma IndexedPairs(m: Memberships, u: Write, e: string, g: string)
    ensures g in Indexed(m, u).GroupsOf(e)
            <==> Files(u) == Some((e, g)) || (g in m.GroupsOf(e) && Unfiles(m, u) != Some((e, g)))
  {
  }

  /** Only a membership row that names both is remembered, under what it names. */
  lemma IndexedRows(m: Memberships, u: Write, row: string)
    ensures var m' := Indexed(m, u);
            if row == u.subjectId && u.subjectType == "entityGroup" && Files(u).Some?
            then row in m'.group && row in m'.entity && (m'.entity[row], m'.group[row]) == Files(u).value
            else (row in m'.group <==> row in m.group) && (row in m'.entity <==> row in m.entity)
                 && (row in m.group ==> m'.group[row] == m.group[row])
                 && (row in m.entity ==> m'.entity[row] == m.entity[row])
  {
  }

  function IndexedAll(m: Memberships, batch: seq<Write>): Memberships
  {
    if batch == [] then m else Indexed(IndexedAll(m, batch[..|batch| - 1]), batch[|batch| - 1])
  }

  lemma IndexedAllStep(m: Memberships, r: Rosters.Roster, batch: seq<Write>, i: nat)
    requires i < |batch|
    ensures IndexedAll(m, batch[..i + 1]) == Indexed(IndexedAll(m, batch[..i]), batch[i])
    ensures Rosters.EnlistedAll(r, batch[..i + 1]) == Rosters.Enlisted(Rosters.EnlistedAll(r, batch[..i]), batch[i])
  {
    assert batch[..i + 1][..i] == batch[..i];
  }

  /** The groups left after adding `puts` and removing groups that are not put again. */
  function ResultingGroups(current: set<string>, puts: set<string>, removed: set<string>): set<string>
  {
    current + puts - (removed - puts)
  }

  /** A put group survives, a current one unless it is removed and not put again, and no other. */
  lemma ResultingExactly(current: set<string>, puts: set<string>, removed: set<string>, g: string)
    ensures g in ResultingGroups(current, puts, removed) <==> g in puts || (g in current && g !in removed)
  {
  }

  /** A removal that would leave an entity of known groups with none. */
  predicate LastMembershipViolation(current: set<string>, puts: set<string>, removed: set<string>)
  {
    current != {} && ResultingGroups(current, puts, removed) == {}
  }

  /** Known groups, nothing put, and every one of them removed. */
  lemma LastMembershipExactly(current: set<string>, puts: set<string>, removed: set<string>)
    ensures LastMembershipViolation(current, puts, removed) <==> current != {} && puts == {} && current <= removed
  {
    forall g ensures g in ResultingGroups(current, puts, removed) <==> g in puts || (g in current && g !in removed) {
      ResultingExactly(current, puts, removed, g);
    }
    if puts != {} {
      var g :| g in puts;
      assert g in ResultingGroups(current, puts, removed);
    }
  }

  /** A row the index does not know, or whose entity it knows no groups of, may be deleted. */
  lemma UnknownMembershipPasses(m: Memberships, row: string)
    requires row in m.group && row in m.entity ==> m.GroupsOf(m.entity[row]) == {}
    ensures !Refused(m, row)
  {
    if row in m.group && row in m.entity { LastMembershipExactly(m.GroupsOf(m.entity[row]), {}, {m.group[row]}); }
  }

  /** Whether deleting a membership row is refused; a row the index does not know passes. */
  predicate Refused(m: Memberships, row: string)
  {
    row in m.group && row in m.entity && LastMembershipViolation(m.GroupsOf(m.entity[row]), {}, {m.group[row]})
  }

  predicate RemovesMembership(u: Write) { u.subjectType == "entityGroup" && u.kind == Delete }

  /** Nobody who had a group has lost them all. */
  ghost predicate KeepsGroups(m: Memberships, m': Memberships)
  {
    forall e :: m.GroupsOf(e) != {} ==> m'.GroupsOf(e) != {}
  }

  lemma IndexedKeepsGroups(m: Memberships, u: Write)
    requires RemovesMembership(u) ==> !Refused(m, u.subjectId)
    ensures KeepsGroups(m, Indexed(m, u))
  {
  }

  lemma {:induction false} IndexedAllKeepsGroups(m: Memberships, batch: seq<Write>)
    requires forall i :: 0 <= i < |batch| ==> !RemovesMembership(batch[i])
    ensures KeepsGroups(m, IndexedAll(m, batch))
    decreases |batch|
  {
    if batch != [] {
      IndexedAllKeepsGroups(m, batch[..|batch| - 1]);
      IndexedKeepsGroups(IndexedAll(m, batch[..|batch| - 1]), batch[|batch| - 1]);
    }
  }

  // ----- membership rows that are really there

  /** A membership change as the verbs make it: file under a fresh row id, or delete a row. */
  datatype Filing = File(row: string, entity: string, group: string) | Unfile(row: string)

  datatype Ledger = Ledger(m: Memberships, live: set<string>)

  predicate Accepted(s: Ledger, f: Filing)
  {
    match f
    case File(row, _, _) => row !in s.m.group && row !in s.m.entity && row !in s.live
    case Unfile(row) => !Refused(s.m, row)
  }

  function AsUpdate(f: Filing): Write
  {
    match f
    case File(row, e, g) =>
      Update(row, "entityGroup", Put,
             map["entity_id" := Leaf(Text(e), "", None), "group_id" := Leaf(Text(g), "", None)])
    case Unfile(row) => Update(row, "entityGroup", Delete, map[])
  }

  function Filed(s: Ledger, f: Filing): Ledger
  {
    Ledger(Indexed(s.m, AsUpdate(f)), if f.File? then s.live + {f.row} else s.live - {f.row})
  }

  /** Every group an entity is indexed under comes from a live membership row. */
  ghost predicate Backed(s: Ledger)
  {
    && s.live <= s.m.group.Keys && s.m.group.Keys == s.m.entity.Keys
    && forall e, g :: g in s.m.GroupsOf(e) ==>
         exists row :: row in s.live && row in s.m.entity && s.m.entity[row] == e && row in s.m.group && s.m.group[row] == g
  }

  lemma FiledBacked(s: Ledger, f: Filing)
    requires Backed(s) && Accepted(s, f)
    ensures Backed(Filed(s, f)) && KeepsGroups(s.m, Filed(s, f).m)
  {
    var s' := Filed(s, f);
    IndexedKeepsGroups(s.m, AsUpdate(f));
    if f.File? {
      assert StringField(AsUpdate(f).fields, "group_id") == Some(f.group);
      assert StringField(AsUpdate(f).fields, "entity_id") == Some(f.entity);
    }
    forall e, g | g in s'.m.GroupsOf(e)
      ensures exists row :: row in s'.live && row in s'.m.entity && s'.m.entity[row] == e
                            && row in s'.m.group && s'.m.group[row] == g
    {
      if f.File? && e == f.entity && g == f.group {
        assert f.row in s'.live && s'.m.entity[f.row] == e && s'.m.group[f.row] == g;
      } else {
        assert g in s.m.GroupsOf(e);
        var row :| row in s.live && row in s.m.entity && s.m.entity[row] == e && row in s.m.group && s.m.group[row] == g;
        assert row in s'.live && s'.m.entity[row] == e && s'.m.group[row] == g;
      }
    }
  }

  // ----- when the guard is exact

  /** The pair that a live row files. */
  function PairOf(s: Ledger, row: string): (string, string)
    requires row in s.m.group && row in s.m.entity
  {
    (s.m.entity[row], s.m.group[row])
  }

  /** A pair is indexed exactly when a live row files it. */
  ghost predicate Exact(s: Ledger)
  {
    Backed(s) && forall row :: row in s.live ==> s.m.group[row] in s.m.GroupsOf(s.m.entity[row])
  }

  /** Another live row files the pair of this one, be it live or deleted before. */
  ghost predicate Doubled(s: Ledger, row: string)
    requires Backed(s)
  {
    row in s.m.group && exists other :: other in s.live && other != row && PairOf(s, other) == PairOf(s, row)
  }

  /** The index stays exact through every accepted filing but the unfiling of a doubled row. */
  lemma FiledExact(s: Ledger, f: Filing)
    requires Exact(s) && Accepted(s, f)
    ensures Exact(Filed(s, f)) <==> !(f.Unfile? && Doubled(s, f.row))
  {
    FiledBacked(s, f);
    var s' := Filed(s, f);
    if f.File? {
      FileNames(f);
      forall row | row in s'.live ensures s'.m.group[row] in s'.m.GroupsOf(s'.m.entity[row]) {
        IndexedPairs(s.m, AsUpdate(f), s'.m.entity[row], s'.m.group[row]);
      }
    } else {
      UnfiledExact(s, f.row);
    }
  }

  lemma FileNames(f: Filing)
    requires f.File?
    ensures Files(AsUpdate(f)) == Some((f.entity, f.group))
  {
    assert StringField(AsUpdate(f).fields, "group_id") == Some(f.group);
    assert StringField(AsUpdate(f).fields, "entity_id") == Some(f.entity);
  }

  lemma UnfiledExact(s: Ledger, row: string)
    requires Exact(s) && Accepted(s, Unfile(row)) && Backed(Filed(s, Unfile(row)))
    ensures Exact(Filed(s, Unfile(row))) <==> !Doubled(s, row)
  {
    var u, s' := AsUpdate(Unfile(row)), Filed(s, Unfile(row));
    forall x | x in s'.live
      ensures s'.m.group[x] in s'.m.GroupsOf(s'.m.entity[x])
              <==> !(row in s.m.group && PairOf(s, x) == PairOf(s, row))
    {
      IndexedPairs(s.m, u, s.m.entity[x], s.m.group[x]);
    }
  }

  /**
   * On an exact index the guard refuses to delete a live row exactly when every
   * live row of its entity files the same group.
   */
  lemma MembershipGuardExact(s: Ledger, row: string)
    requires Exact(s) && row in s.live
    ensures Refused(s.m, row) <==>
              forall other :: other in s.live && s.m.entity[other] == s.m.entity[row] ==> s.m.group[other] == s.m.group[row]
  {
    var e, g := s.m.entity[row], s.m.group[row];
    var groups := s.m.GroupsOf(e);
    assert g in groups;
    assert ResultingGroups(groups, {}, {g}) == groups - {g};
    if groups - {g} != {} {
      var g' :| g' in groups - {g};
      var other :| other in s.live && other in s.m.entity && s.m.entity[other] == e && other in s.m.group && s.m.group[other] == g';
      assert s.m.group[other] != g;
    }
    forall other | other in s.live && s.m.entity[other] == e && s.m.group[other] != g
      ensures s.m.group[other] in groups - {g}
    {
    }
  }

  /** No two live rows file the same pair. */
  ghost predicate NoDoubles(s: Ledger)
    requires Backed(s)
  {
    forall row :: row in s.live ==> !Doubled(s, row)
  }

  /** Then it refuses exactly the entity's only live row. */
  lemma OnlyRowRefused(s: Ledger, row: string)
    requires Exact(s) && NoDoubles(s) && row in s.live
    ensures Refused(s.m, row) <==> forall other :: other in s.live && s.m.entity[other] == s.m.entity[row] ==> other == row
  {
    MembershipGuardExact(s, row);
    assert !Doubled(s, row);
  }

  /** No doubled row is unfiled along a run. */
  ghost predicate NeverDoubled(s: Ledger, fs: seq<Filing>)
    requires Exact(s)
    decreases |fs|
  {
    fs == [] ||
    (&& !(fs[0].Unfile? && Accepted(s, fs[0]) && Doubled(s, fs[0].row))
     && (var next := TriedFiling(s, fs[0]);
         Exact(next) ==> NeverDoubled(next, fs[1..])))
  }

  /** Through every such run, refused deletes included, the index and with it the guard stay exact. */
  lemma {:induction false} KeepsExact(s: Ledger, fs: seq<Filing>)
    requires Exact(s) && NeverDoubled(s, fs)
    requires FreshFilings(s, fs)
    ensures Exact(TryAll(s, fs))
    decreases |fs|
  {
    if fs != [] {
      if Accepted(s, fs[0]) { FiledExact(s, fs[0]); }
      KeepsExact(TriedFiling(s, fs[0]), fs[1..]);
    }
  }

  const NONE_FILED: Ledger := Ledger(Memberships(map[], map[], map[]), {})

  /** An entity filed twice under one group: deleting one row is refused although the other stays. */
  lemma DoubledIsRefused()
    ensures var s := Filed(Filed(NONE_FILED, File("r1", "e", "g")), File("r2", "e", "g"));
            && Exact(s) && s.live == {"r1", "r2"} && s.m.entity == map["r1" := "e", "r2" := "e"]
            && Refused(s.m, "r1") && Refused(s.m, "r2")
  {
    var a, b := File("r1", "e", "g"), File("r2", "e", "g");
    var s1 := Filed(NONE_FILED, a);
    FiledExact(NONE_FILED, a);
    FileNames(a);
    FileNames(b);
    IndexedRows(NONE_FILED.m, AsUpdate(a), "r2");
    assert Accepted(s1, b);
    FiledExact(s1, b);
    var s := Filed(s1, b);
    MembershipGuardExact(s, "r1");
    MembershipGuardExact(s, "r2");
  }

  ghost predicate Filings(s: Ledger, fs: seq<Filing>)
    decreases |fs|
  {
    fs == [] || (Accepted(s, fs[0]) && Filings(Filed(s, fs[0]), fs[1..]))
  }

  ghost function FileAll(s: Ledger, fs: seq<Filing>): Ledger
    requires Filings(s, fs)
    decreases |fs|
  {
    if fs == [] then s else FileAll(Filed(s, fs[0]), fs[1..])
  }

  ghost predicate HasLiveRow(s: Ledger, e: string)
  {
    exists row :: row in s.live && row in s.m.entity && s.m.entity[row] == e
  }

  /** An entity that was ever filed keeps a live membership row through every accepted run. */
  lemma {:induction false} KeepsLiveMembership(s: Ledger, fs: seq<Filing>, e: string)
    requires Backed(s) && Filings(s, fs) && s.m.GroupsOf(e) != {}
    ensures HasLiveRow(FileAll(s, fs), e)
    decreases |fs|
  {
    if fs == [] {
      var g :| g in s.m.GroupsOf(e);
      assert HasLiveRow(s, e);
    } else {
      FiledBacked(s, fs[0]);
      assert Filed(s, fs[0]).m.GroupsOf(e) != {};
      KeepsLiveMembership(Filed(s, fs[0]), fs[1..], e);
    }
  }

  // ----- the surface

  function Flatten(actions: seq<seq<Write>>): seq<Write>
  {
    if actions == [] then [] else Flatten(actions[..|actions| - 1]) + actions[|actions| - 1]
  }

  /** The list of an id is the buffer restricted to it, and its type is that of its last update. */
  ghost predicate Lists(byId: map<string, seq<Write>>, types: map<string, string>, id: string, own: seq<Write>)
  {
    && (if id in byId then byId[id] else []) == own
    && (own != [] ==> id in types && types[id] == own[|own| - 1].subjectType)
  }

  ghost predicate PerId(byId: map<string, seq<Write>>, types: map<string, string>, buffer: seq<Write>)
  {
    forall id :: Lists(byId, types, id, For(id, buffer))
  }

  /** The triples that satisfy `PerId`, as a set: membership is one proposition, proved once per change. */
  ghost function PerIdLists(): iset<(map<string, seq<Write>>, map<string, string>, seq<Write>)>
  {
    iset p: (map<string, seq<Write>>, map<string, string>, seq<Write>) | PerId(p.0, p.1, p.2)
  }

  lemma PerIdPush(byId: map<string, seq<Write>>, types: map<string, string>, buffer: seq<Write>, u: Write)
    requires PerId(byId, types, buffer)
    ensures PerId(byId[u.subjectId := (if u.subjectId in byId then byId[u.subjectId] else []) + [u]],
                  types[u.subjectId := u.subjectType], buffer + [u])
  {
    assert (buffer + [u])[..|buffer|] == buffer;
    forall id ensures Lists(byId[u.subjectId := (if u.subjectId in byId then byId[u.subjectId] else []) + [u]],
                            types[u.subjectId := u.subjectType], id, For(id, buffer + [u]))
    {
      assert Lists(byId, types, id, For(id, buffer));
      assert For(id, buffer + [u]) == For(id, buffer) + if u.subjectId == id then [u] else [];
    }
  }

  /**
   * A call on the surface.  Batches are what the planner made of it; `planned`
   * says that it made something: there is a schema that knows the entity, and
   * the payload has its shape.
   */
  datatype Verb =
    | Creates(batch: seq<Write>, planned: bool, scoped: bool)
    | Relates(batch: seq<Write>, planned: bool)
    | Amends(entity: string, id: string, patch: Fields<Value>, planned: bool)
    | Removes(entity: string, id: string, registered: bool)
    | Resumes(batch: seq<Write>)
    | Commits(named: bool, valid: bool)

  /** A planner batch never deletes membership rows; only `delete` does, behind its guard. */
  predicate DropsMembership(v: Verb)
  {
    (v.Creates? || v.Relates? || v.Resumes?) && exists i :: 0 <= i < |v.batch| && RemovesMembership(v.batch[i])
  }

  // ----- the surface as a value

  /**
   * What an invocation has recorded, what it handed to the host, and whether
   * anything was recorded behind the seal.
   */
  datatype Surface = Surface(updates: seq<Write>, memberships: Memberships, roster: Rosters.Roster, sealed: bool,
                             sent: seq<seq<Write>>, recorded: seq<Write>, late: bool)

  const FRESH: Surface := Surface([], Memberships(map[], map[], map[]), Rosters.NO_ROSTER, false, [], [], false)

  function Noted(f: Surface, batch: seq<Write>): Surface
  {
    f.(updates := f.updates + batch, memberships := IndexedAll(f.memberships, batch),
       roster := Rosters.EnlistedAll(f.roster, batch), recorded := f.recorded + batch,
       late := f.late || (f.sealed && batch != []))
  }

  /** Whether a guard of `update` or `delete` refuses a change. */
  predicate Barred(f: Surface, v: Verb)
  {
    match v
    case Amends(entity, id, patch, _) => entity == "groupMember" && Rosters.PatchRefused(f.roster, id, patch)
    case Removes(entity, id, _) =>
      || (entity == "entityGroup" && Refused(f.memberships, id))
      || (entity == "groupMember" && Rosters.DismissalRefused(f.roster, id))
    case _ => false
  }

  function Performed(f: Surface, v: Verb): Surface
  {
    match v
    case Creates(batch, planned, _) => if f.sealed || !planned then f else Noted(f, batch)
    case Relates(batch, planned) => if f.sealed || !planned then f else Noted(f, batch)
    case Amends(entity, id, patch, planned) =>
      if f.sealed || !planned || Barred(f, v) then f else Noted(f, [Update(id, entity, Patch, patch)])
    case Removes(entity, id, registered) =>
      if f.sealed || !registered || Barred(f, v) then f else Noted(f, [Update(id, entity, Delete, map[])])
    case Resumes(batch) => Noted(f, batch)
    case Commits(named, valid) =>
      if f.updates == [] || !named || !valid then f
      else f.(updates := [], sealed := true, sent := f.sent + [f.updates])
  }

  function PerformedAll(f: Surface, vs: seq<Verb>): Surface
    decreases |vs|
  {
    if vs == [] then f else PerformedAll(Performed(f, vs[0]), vs[1..])
  }

  /**
   * Every recorded update is in exactly one place, sent or buffered, in call
   * order; and nothing was recorded behind the seal exactly when there is at
   * most one Action with an empty buffer behind it.
   */
  ghost predicate Accounted(f: Surface)
  {
    && Flatten(f.sent) + f.updates == f.recorded
    && (!f.late ==> |f.sent| == (if f.sealed then 1 else 0) && (f.sealed ==> f.updates == []))
    && (f.late ==> f.sealed && |f.sent| >= 1 && |f.sent[0]| < |f.recorded|)
  }

  /** The accounted surfaces as a set, for the same reason as `PerIdLists`. */
  ghost function Books(): iset<Surface> { iset f: Surface | Accounted(f) }

  /** At most one Action, and it carries everything recorded, in call order. */
  predicate Single(f: Surface)
  {
    if f.sealed then f.sent == [f.recorded] && f.updates == [] else f.sent == [] && f.updates == f.recorded
  }

  lemma SingleExactly(f: Surface)
    requires Accounted(f)
    ensures Single(f) <==> !f.late
  {
    if !f.late && f.sealed {
      FlattenOne(f.sent[0]);
      assert f.sent == [f.sent[0]];
      assert f.sent[0] + [] == f.sent[0];
    }
    if !f.late && !f.sealed {
      assert [] + f.updates == f.updates;
    }
  }

  lemma FlattenOne(batch: seq<Write>)
    ensures Flatten([batch]) == batch
  {
    assert [batch][..0] == [];
    assert [] + batch == batch;
  }

  lemma NotedAccounted(f: Surface, batch: seq<Write>)
    requires Accounted(f)
    ensures Accounted(Noted(f, batch))
  {
    SingleExactly(f);
    Regroup(Flatten(f.sent), f.updates, batch);
  }

  lemma Regroup(a: seq<Write>, b: seq<Write>, c: seq<Write>)
    ensures a + (b + c) == a + b + c
  {
  }

  lemma CommitAccounted(f: Surface, named: bool, valid: bool)
    requires Accounted(f)
    ensures Accounted(Performed(f, Commits(named, valid)))
  {
    var sent := f.sent + [f.updates];
    FlattenSnoc(f.sent, f.updates);
    assert Flatten(sent) + [] == Flatten(sent);
    assert |f.sent| >= 1 ==> sent[0] == f.sent[0];
  }

  lemma FlattenSnoc(sent: seq<seq<Write>>, batch: seq<Write>)
    ensures Flatten(sent + [batch]) == Flatten(sent) + batch
  {
    assert (sent + [batch])[..|sent|] == sent;
  }

  /** What a commit leaves, and what the first one sends. */
  lemma CommitBooks(f: Surface)
    requires f in Books() && f.updates != []
    ensures Performed(f, Commits(true, true)) in Books()
    ensures !f.late ==> f.sent + [f.updates] == [f.recorded]
  {
    var g := Performed(f, Commits(true, true));
    CommitAccounted(f, true, true);
    SingleExactly(g);
    assert g.sent == f.sent + [f.updates] && g.recorded == f.recorded && g.late == f.late;
  }

  lemma PerformedAccounted(f: Surface, v: Verb)
    requires Accounted(f)
    ensures Accounted(Performed(f, v))
  {
    match v
    case Creates(batch, _, _) => NotedAccounted(f, batch);
    case Relates(batch, _) => NotedAccounted(f, batch);
    case Amends(entity, id, patch, _) => NotedAccounted(f, [Update(id, entity, Patch, patch)]);
    case Removes(entity, id, _) => NotedAccounted(f, [Update(id, entity, Delete, map[])]);
    case Resumes(batch) => NotedAccounted(f, batch);
    case Commits(named, valid) => CommitAccounted(f, named, valid);
  }

  /** An `unrelate` that resumes with something to record on a surface sealed meanwhile. */
  predicate LateStep(f: Surface, v: Verb)
  {
    v.Resumes? && v.batch != [] && f.sealed
  }

  predicate LateRun(f: Surface, vs: seq<Verb>)
    decreases |vs|
  {
    vs != [] && (LateStep(f, vs[0]) || LateRun(Performed(f, vs[0]), vs[1..]))
  }

  lemma {:induction false} RunAccounted(f: Surface, vs: seq<Verb>)
    requires Accounted(f)
    ensures Accounted(PerformedAll(f, vs)) && PerformedAll(f, vs).late == (f.late || LateRun(f, vs))
    decreases |vs|
  {
    if vs != [] {
      PerformedAccounted(f, vs[0]);
      RunAccounted(Performed(f, vs[0]), vs[1..]);
    }
  }

  /** One invocation, one Action: over every run, exactly when no `unrelate` resumes late. */
  lemma OneActionExactly(f: Surface, vs: seq<Verb>)
    requires Accounted(f) && !f.late
    ensures Single(PerformedAll(f, vs)) <==> !LateRun(f, vs)
  {
    RunAccounted(f, vs);
    SingleExactly(PerformedAll(f, vs));
  }

  /** No `unrelate` is left waiting across a commit. */
  predicate NoResumeAfterCommit(vs: seq<Verb>)
  {
    forall i, j :: 0 <= i < j < |vs| && vs[i].Commits? ==> !vs[j].Resumes?
  }

  /** A run that can be told from its verbs alone. */
  lemma {:induction false} NoResumeIsNotLate(f: Surface, vs: seq<Verb>)
    requires NoResumeAfterCommit(vs)
    requires f.sealed ==> forall i :: 0 <= i < |vs| ==> !vs[i].Resumes?
    ensures !LateRun(f, vs)
    decreases |vs|
  {
    if vs != [] {
      assert vs[0].Commits? ==> forall i :: 0 <= i < |vs[1..]| ==> !vs[1..][i].Resumes?;
      NoResumeIsNotLate(Performed(f, vs[0]), vs[1..]);
    }
  }

  lemma PerformedKeepsGroups(f: Surface, v: Verb)
    requires !DropsMembership(v)
    ensures KeepsGroups(f.memberships, Performed(f, v).memberships)
  {
    match v
    case Creates(batch, _, _) => IndexedAllKeepsGroups(f.memberships, batch);
    case Relates(batch, _) => IndexedAllKeepsGroups(f.memberships, batch);
    case Amends(entity, id, patch, _) => IndexedAllKeepsGroups(f.memberships, [Update(id, entity, Patch, patch)]);
    case Removes(entity, id, _) =>
      var u: Write := Update(id, entity, Delete, map[]);
      assert [u][..0] == [];
      assert IndexedAll(f.memberships, [u]) == Indexed(f.memberships, u);
      if !Barred(f, v) { IndexedKeepsGroups(f.memberships, u); }
    case Resumes(batch) => IndexedAllKeepsGroups(f.memberships, batch);
    case Commits(_, _) =>
  }

  lemma NoLists(types: map<string, string>)
    ensures (map[], types, []) in PerIdLists()
  {
  }

  // ----- membership rows through the surface

  /** The verbs that file and unfile. */
  function AsVerb(f: Filing): Verb
  {
    if f.File? then Creates([AsUpdate(f)], true, true) else Removes("entityGroup", f.row, true)
  }

  function AsVerbs(fs: seq<Filing>): (vs: seq<Verb>)
    ensures |vs| == |fs|
  {
    seq(|fs|, i requires 0 <= i < |fs| => AsVerb(fs[i]))
  }

  /** The ledger after a filing was tried; a refused one does nothing. */
  function TriedFiling(s: Ledger, f: Filing): Ledger
  {
    if Accepted(s, f) then Filed(s, f) else s
  }

  /** Any filings, as long as filed rows have fresh ids. */
  predicate FreshFilings(s: Ledger, fs: seq<Filing>)
    decreases |fs|
  {
    fs == [] || ((fs[0].File? ==> Accepted(s, fs[0])) && FreshFilings(TriedFiling(s, fs[0]), fs[1..]))
  }

  function TryAll(s: Ledger, fs: seq<Filing>): Ledger
    decreases |fs|
  {
    if fs == [] then s else TryAll(TriedFiling(s, fs[0]), fs[1..])
  }

  lemma PerformedFiling(f: Surface, live: set<string>, x: Filing)
    requires !f.sealed && (x.File? ==> Accepted(Ledger(f.memberships, live), x))
    ensures !Performed(f, AsVerb(x)).sealed
    ensures Performed(f, AsVerb(x)).memberships == TriedFiling(Ledger(f.memberships, live), x).m
  {
    var u := AsUpdate(x);
    assert [u][..0] == [];
    assert IndexedAll(f.memberships, [u]) == Indexed(f.memberships, u);
  }

  /**
   * Through every run of `create` and `delete` of membership rows on the surface,
   * refused deletes included, an entity with a group keeps a live membership row.
   */
  lemma {:induction false} SurfaceKeepsMembership(f: Surface, live: set<string>, fs: seq<Filing>, e: string)
    requires !f.sealed && Backed(Ledger(f.memberships, live)) && FreshFilings(Ledger(f.memberships, live), fs)
    requires f.memberships.GroupsOf(e) != {}
    ensures var s := TryAll(Ledger(f.memberships, live), fs);
            PerformedAll(f, AsVerbs(fs)).memberships == s.m && HasLiveRow(s, e)
    decreases |fs|
  {
    var s := Ledger(f.memberships, live);
    if fs == [] {
      var g :| g in f.memberships.GroupsOf(e);
      assert HasLiveRow(s, e);
    } else {
      var next, s' := Performed(f, AsVerb(fs[0])), TriedFiling(s, fs[0]);
      PerformedFiling(f, live, fs[0]);
      if Accepted(s, fs[0]) { FiledBacked(s, fs[0]); }
      assert s' == Ledger(next.memberships, s'.live) && next.memberships.GroupsOf(e) != {};
      SurfaceKeepsMembership(next, s'.live, fs[1..], e);
      assert AsVerbs(fs)[0] == AsVerb(fs[0]) && AsVerbs(fs)[1..] == AsVerbs(fs[1..]);
    }
  }

  datatype Outcome = Nothing | Rejected | Committed

  class WriteSurface {
    var updates: seq<Write>
    var updatesById: map<string, seq<Write>>
    var types: map<string, string>
    var memberships: Memberships
    var roster: Rosters.Roster
    var sealed: bool
    /** The Actions handed to the host, in order. */
    var sent: seq<seq<Write>>
    /** Everything recorded, in call order, and whether anything was recorded after the seal. */
    ghost var recorded: seq<Write>
    ghost var late: bool

    ghost function State(): Surface
      reads this
    {
      Surface(updates, memberships, roster, sealed, sent, recorded, late)
    }

    ghost predicate Valid()
      reads this
    {
      (updatesById, types, updates) in PerIdLists() && State() in Books()
    }

    constructor ()
      ensures Valid() && State() == FRESH
    {
      updates, updatesById, types := [], map[], map[];
      memberships, roster := Memberships(map[], map[], map[]), Rosters.NO_ROSTER;
      sealed, sent, recorded, late := false, [], [], false;
    }

    /** Buffers one update and indexes it. */
    method RecordOne(u: Write)
      requires (updatesById, types, updates) in PerIdLists()
      modifies this`updates, this`updatesById, this`types, this`memberships, this`roster
      ensures (updatesById, types, updates) in PerIdLists()
      ensures updates == old(updates) + [u] && memberships == Indexed(old(memberships), u)
      ensures roster == Rosters.Enlisted(old(roster), u)
    {
      PerIdPush(updatesById, types, updates, u);
      updates := updates + [u];
      updatesById := updatesById[u.subjectId := (if u.subjectId in updatesById then updatesById[u.subjectId] else []) + [u]];
      types := types[u.subjectId := u.subjectType];
      memberships := Indexed(memberships, u);
      roster := Rosters.Enlisted(roster, u);
    }

    /** Buffers a batch and indexes each update as it goes in. */
    method RecordAll(batch: seq<Write>)
      requires (updatesById, types, updates) in PerIdLists()
      modifies this`updates, this`updatesById, this`types, this`memberships, this`roster
      ensures (updatesById, types, updates) in PerIdLists() && updates == old(updates) + batch
      ensures memberships == IndexedAll(old(memberships), batch)
      ensures roster == Rosters.EnlistedAll(old(roster), batch)
    {
      ghost var start, enlisted, buffered := memberships, roster, updates;
      var i := 0;
      while i < |batch|
        invariant 0 <= i <= |batch|
        invariant (updatesById, types, updates) in PerIdLists()
        invariant updates == buffered + batch[..i]
        invariant memberships == IndexedAll(start, batch[..i]) && roster == Rosters.EnlistedAll(enlisted, batch[..i])
      {
        IndexedAllStep(start, enlisted, batch, i);
        RecordOne(batch[i]);
        i := i + 1;
      }
      assert batch[..i] == batch;
    }

    method Record(batch: seq<Write>)
      requires Valid()
      modifies this`updates, this`updatesById, this`types, this`memberships, this`roster, this`recorded, this`late
      ensures Valid() && State() == Noted(old(State()), batch)
    {
      NotedAccounted(State(), batch);
      RecordAll(batch);
      recorded, late := recorded + batch, late || (sealed && batch != []);
    }

    /**
     * `create`: refused when sealed or unplanned.  The check that its membership
     * rows resolve to a group comes after recording: a `create` that fails it
     * throws with its updates in the buffer.
     */
    method Create(batch: seq<Write>, planned: bool, scoped: bool) returns (ok: bool)
      requires Valid()
      modifies this`updates, this`updatesById, this`types, this`memberships, this`roster, this`recorded, this`late
      ensures Valid() && State() == Performed(old(State()), Creates(batch, planned, scoped))
      ensures ok <==> !sealed && planned && scoped
      ensures recorded == old(recorded) + if !sealed && planned then batch else []
    {
      if sealed || !planned { return false; }
      Record(batch);
      return scoped;
    }

    /** `relate`: refused when sealed or unplanned. */
    method Relate(batch: seq<Write>, planned: bool) returns (ok: bool)
      requires Valid()
      modifies this`updates, this`updatesById, this`types, this`memberships, this`roster, this`recorded, this`late
      ensures Valid() && State() == Performed(old(State()), Relates(batch, planned))
      ensures ok <==> !sealed && planned
      ensures recorded == old(recorded) + if ok then batch else []
    {
      if sealed || !planned { return false; }
      Record(batch);
      return true;
    }

    /** `update`: refused as well if it would disarm a group's last capable member. */
    method Amend(entity: string, id: string, patch: Fields<Value>, planned: bool) returns (ok: bool)
      requires Valid()
      modifies this`updates, this`updatesById, this`types, this`memberships, this`roster, this`recorded, this`late
      ensures Valid() && State() == Performed(old(State()), Amends(entity, id, patch, planned))
      ensures recorded == old(recorded) + if ok then [Update(id, entity, Patch, patch)] else []
      ensures ok <==> !sealed && planned && !(entity == "groupMember" && Rosters.PatchRefused(old(roster), id, patch))
    {
      if sealed { return false; }
      if entity == "groupMember" && Rosters.PatchRefused(roster, id, patch) { return false; }
      if !planned { return false; }
      Record([Update(id, entity, Patch, patch)]);
      return true;
    }

    /** `delete`: refused as well if it would remove an entity's or a group's last known member row. */
    method Remove(entity: string, id: string, registered: bool) returns (ok: bool)
      requires Valid()
      modifies this`updates, this`updatesById, this`types, this`memberships, this`roster, this`recorded, this`late
      ensures Valid() && State() == Performed(old(State()), Removes(entity, id, registered))
      ensures recorded == old(recorded) + if ok then [Update(id, entity, Delete, map[])] else []
      ensures ok <==> && !sealed && registered && !(entity == "entityGroup" && Refused(old(memberships), id))
                      && !(entity == "groupMember" && Rosters.DismissalRefused(old(roster), id))
    {
      if sealed || !registered { return false; }
      if entity == "entityGroup" && Refused(memberships, id) { return false; }
      if entity == "groupMember" && Rosters.DismissalRefused(roster, id) { return false; }
      Record([Update(id, entity, Delete, map[])]);
      return true;
    }

    /** `unrelate` checks the seal before it awaits a read, and records after it without checking again. */
    method ResumeUnrelate(batch: seq<Write>)
      requires Valid()
      modifies this`updates, this`updatesById, this`types, this`memberships, this`roster, this`recorded, this`late
      ensures Valid() && State() == Performed(old(State()), Resumes(batch))
      ensures recorded == old(recorded) + batch && updates == old(updates) + batch
    {
      Record(batch);
    }

    /** Submits the buffer as one Action and seals it; a failed local check keeps the buffer. */
    method Commit(named: bool, valid: bool) returns (r: Outcome)
      requires Valid()
      modifies this`updates, this`updatesById, this`sealed, this`sent
      ensures Valid() && State() == Performed(old(State()), Commits(named, valid))
      ensures r == if old(updates) == [] then Nothing else if !named || !valid then Rejected else Committed
      ensures r != Committed ==> State() == old(State())
      ensures r == Committed ==> sealed && updates == [] && sent == old(sent) + [old(updates)] && recorded == old(recorded)
      // The first Action carries everything recorded so far, in call order.
      ensures r == Committed && !late ==> sent == [recorded]
    {
      if |updates| == 0 { return Nothing; }
      if !named || !valid { return Rejected; }
      CommitBooks(State());
      NoLists(types);
      sealed := true;
      sent := sent + [updates];
      updates := [];
      updatesById := map[];
      return Committed;
    }

    /** One verb, or the end of an `unrelate` that waited for a read. */
    method Perform(v: Verb)
      requires Valid()
      modifies this
      ensures Valid() && State() == Performed(old(State()), v)
    {
      var ok, r;
      match v
      case Creates(batch, planned, scoped) => ok := Create(batch, planned, scoped);
      case Relates(batch, planned) => ok := Relate(batch, planned);
      case Amends(entity, id, patch, planned) => ok := Amend(entity, id, patch, planned);
      case Removes(entity, id, registered) => ok := Remove(entity, id, registered);
      case Resumes(batch) => ResumeUnrelate(batch);
      case Commits(named, valid) => r := Commit(named, valid);
    }

    /**
     * Every run of verbs: no entity that had a group loses them all; and if
     * nothing was late before, there is at most one Action, which carries
     * everything recorded, in call order, with nothing behind it, exactly when
     * no `unrelate` resumed late.
     */
    method PerformAll(vs: seq<Verb>)
      requires Valid()
      modifies this
      ensures Valid() && State() == PerformedAll(old(State()), vs)
      ensures (forall i :: 0 <= i < |vs| ==> !DropsMembership(vs[i])) ==> KeepsGroups(old(memberships), memberships)
      ensures !old(late) ==> (Single(State()) <==> !LateRun(old(State()), vs))
      ensures !old(late) && !old(sealed) && NoResumeAfterCommit(vs) ==> Single(State())
    {
      ghost var start, kept := State(), forall i :: 0 <= i < |vs| ==> !DropsMembership(vs[i]);
      var i := 0;
      assert vs[0..] == vs;
      while i < |vs|
        invariant 0 <= i <= |vs| && Valid() && PerformedAll(State(), vs[i..]) == PerformedAll(start, vs)
        invariant kept ==> KeepsGroups(start.memberships, memberships)
      {
        assert vs[i..][0] == vs[i] && vs[i..][1..] == vs[i + 1..];
        if kept { PerformedKeepsGroups(State(), vs[i]); }
        Perform(vs[i]);
        i := i + 1;
      }
      if !start.late { OneActionExactly(start, vs); }
      if !start.sealed && NoResumeAfterCommit(vs) { NoResumeIsNotLate(start, vs); }
    }

    /** Reads one id through the overlay. */
    method Read(id: string, host: Option<Entity<Value>>) returns (r: Option<Entity<Value>>)
      requires Valid()
      ensures For(id, updates) == [] ==> r == host
      ensures host.Some? || HasPut(For(id, updates)) ==> HostRow(r) == ApplyAll(HostRow(host), For(id, updates))
      ensures For(id, updates) != [] && host.None? && !HasPut(For(id, updates)) ==> r == None
      ensures For(id, updates) != [] && r.Some? ==>
                r.value.id == id && r.value.subjectType == For(id, updates)[|For(id, updates)| - 1].subjectType
      // A row deleted last is gone, whatever the host has.
      ensures For(id, updates) != [] && For(id, updates)[|For(id, updates)| - 1].kind == Delete ==> r == None
      ensures host.Some? || HasPut(For(id, updates)) ==>
                forall i :: 0 <= i < |For(id, updates)| && For(id, updates)[i].kind == Delete ==>
                  HostRow(r) == ApplyAll(None, For(id, updates)[i + 1..])
    {
      var writes := if id in updatesById then updatesById[id] else [];
      assert Lists(updatesById, types, id, For(id, updates));
      r := ReadOverlay(id, writes, if id in types then Some(types[id]) else None, host);
    }
  }

  /**
   * A row created in this invocation and written with stamps of its clock reads
   * back, through the surface, the last value written to a leaf field, as long
   * as no millisecond runs out of counters.
   */
  method ReadBack(w: WriteSurface, id: string, host: Option<Entity<Value>>, key: string,
                  ghost k: Clock, ghost nows: seq<nat>, ghost at: seq<nat>, ghost put: Write, ghost patches: seq<Write>)
    returns (r: Option<Entity<Value>>)
    requires w.Valid() && For(id, w.updates) == [put] + patches
    requires k.c < COUNTER && Roomy(k.l, k.c + 1, nows)
    requires Increasing(at) && forall i :: 0 <= i < |at| ==> at[i] < |nows|
    requires Written(put, patches, Drawn(k, nows, at))
    requires LastWritten(put, patches, key).Some? && LastWritten(put, patches, key).value.Leaf?
    ensures r.Some? && key in r.value.fields && r.value.fields[key] == LastWritten(put, patches, key).value
  {
    r := w.Read(id, host);
    assert ([put] + patches)[0].kind == Put;
    ReadBackOnClock(k, nows, at, HostRow(host), put, patches, key);
  }

  lemma CommitNoted(f: Surface, batch: seq<Write>)
    requires f.updates == [] && batch != []
    ensures var g := Performed(Noted(f, batch), Commits(true, true));
            g.updates == [] && g.sealed && g.sent == f.sent + [batch]
  {
    var n := Noted(f, batch);
    assert n.sent == f.sent && n.updates == batch;
  }

  lemma SecondActionRun(u: Write, v: Write)
    ensures var vs := [Creates([u], true, true), Commits(true, true), Resumes([v]), Commits(true, true)];
            PerformedAll(FRESH, vs).sent == [[u], [v]] && LateRun(FRESH, vs)
  {
    var vs := [Creates([u], true, true), Commits(true, true), Resumes([v]), Commits(true, true)];
    var first := Performed(Performed(FRESH, vs[0]), vs[1]);
    CommitNoted(FRESH, [u]);
    CommitNoted(first, [v]);
    var last := Performed(Performed(first, vs[2]), vs[3]);
    assert vs[1..][1..] == vs[2..] && vs[2..][1..] == [vs[3]] && vs[2..][0] == vs[2] && vs[2..][1..][1..] == [];
    assert PerformedAll(first, vs[2..]) == last by { assert PerformedAll(Performed(first, vs[2]), [vs[3]]) == last; }
    assert LateRun(first, vs[2..]);
  }

  /** A suspended `unrelate` that resumes after the commit leads to a second Action. */
  method SecondAction(u: Write, v: Write) returns (w: WriteSurface)
    ensures fresh(w) && w.sent == [[u], [v]]
  {
    w := new WriteSurface();
    SecondActionRun(u, v);
    w.PerformAll([Creates([u], true, true), Commits(true, true), Resumes([v]), Commits(true, true)]);
  }
}
