/**
 * The members of the groups an invocation created, and the guard that keeps a
 * group from losing its last member with a non-empty permission list.
 */
module Rosters {
  import opened Options
  import opened FieldMerge
  import opened Overlay
  import opened WriteValues

  /** Permission lists by member row. */
  type Grants = map<string, seq<string>>

  /** Created groups, the member rows written per group, and each row's group. */
  datatype Roster = Roster(created: set<string>, members: map<string, Grants>, group: map<string, string>)
  {
    function GrantsOf(g: string): Grants { if g in members then members[g] else map[] }
  }

  const NO_ROSTER: Roster := Roster({}, map[], map[])

  function Granted(fields: Fields<Value>): seq<string>
  {
    var list := StringListField(fields, "permissions");
    if list.Some? then list.value else []
  }

  /** What one update does to the rosters; a patch that names no group is not indexed. */
  function Enlisted(r: Roster, u: Write): Roster
  {
    match u.subjectType
    case "group" => if u.kind == Delete then r else r.(created := r.created + {u.subjectId})
    case "groupMember" =>
      var g := StringField(u.fields, "group_id");
      if u.kind == Delete then
        if u.subjectId in r.group && r.group[u.subjectId] in r.members
        then r.(members := r.members[r.group[u.subjectId] := r.members[r.group[u.subjectId]] - {u.subjectId}])
        else r
      else if g.None? then r
      else r.(group := r.group[u.subjectId := g.value],
              members := r.members[g.value := r.GrantsOf(g.value)[u.subjectId := Granted(u.fields)]])
    case _ => r
  }

  function EnlistedAll(r: Roster, batch: seq<Write>): Roster
  {
    if batch == [] then r else Enlisted(EnlistedAll(r, batch[..|batch| - 1]), batch[|batch| - 1])
  }

  predicate Capable(grants: Grants)
  {
    exists row :: row in grants && grants[row] != []
  }

  /** A change that would leave a known, non-empty roster without a capable member. */
  predicate LastMemberViolation(current: Grants, removed: set<string>, upserts: Grants)
  {
    current != map[] && !Capable((current - removed) + upserts)
  }

  /** A known roster is violated exactly if no upserted row, and no other row that stays, has permissions. */
  lemma ViolatedExactly(current: Grants, removed: set<string>, upserts: Grants)
    ensures LastMemberViolation(current, removed, upserts) <==>
              && current != map[]
              && (forall row :: row in upserts ==> upserts[row] == [])
              && (forall row :: row in current && row !in removed && row !in upserts ==> current[row] == [])
  {
    var left := (current - removed) + upserts;
    forall row ensures row in left <==> row in upserts || (row in current && row !in removed) {
    }
    if !Capable(left) {
      forall row | row in upserts ensures upserts[row] == [] { assert left[row] == upserts[row]; }
      forall row | row in current && row !in removed && row !in upserts ensures current[row] == [] {
        assert left[row] == current[row];
      }
    }
  }

  /** Whether deleting a member row is refused; groups of other invocations pass. */
  predicate DismissalRefused(r: Roster, row: string)
  {
    row in r.group && r.group[row] in r.created && LastMemberViolation(r.GrantsOf(r.group[row]), {row}, map[])
  }

  /** Whether patching a member row is refused; a patch that names a group passes. */
  predicate PatchRefused(r: Roster, row: string, patch: Fields<Value>)
  {
    && "group_id" !in patch && StringListField(patch, "permissions").Some?
    && row in r.group && r.group[row] in r.created
    && LastMemberViolation(r.GrantsOf(r.group[row]), {}, map[row := Granted(patch)])
  }

  /** A row whose group this invocation did not create, or that it never wrote, is not guarded. */
  lemma ForeignRowsPass(r: Roster, row: string, patch: Fields<Value>)
    requires row in r.group ==> r.group[row] !in r.created || r.GrantsOf(r.group[row]) == map[]
    ensures !DismissalRefused(r, row) && !PatchRefused(r, row, patch)
  {
  }

  /** The row is the last capable one of `g`, and the update files it there again with nothing. */
  predicate Strips(r: Roster, u: Write, g: string)
  {
    && u.subjectType == "groupMember" && u.kind != Delete
    && StringField(u.fields, "group_id") == Some(g) && Granted(u.fields) == []
    && !Capable(r.GrantsOf(g) - {u.subjectId})
  }

  /**
   * A created group with a capable member in the index keeps one through every
   * update the guards let pass, except one that names the group again.
   */
  lemma IndexKeepsCapable(r: Roster, u: Write, g: string)
    requires g in r.created && Capable(r.GrantsOf(g))
    requires u.subjectType == "groupMember" && u.kind == Delete ==> !DismissalRefused(r, u.subjectId)
    ensures Capable(Enlisted(r, u).GrantsOf(g)) <==> !Strips(r, u, g)
  {
    var row, before, after := u.subjectId, r.GrantsOf(g), Enlisted(r, u).GrantsOf(g);
    if u.subjectType == "groupMember" {
      if u.kind == Delete {
        assert row in r.group && r.group[row] == g ==> (before - {row}) + map[] == after;
      } else if StringField(u.fields, "group_id") == Some(g) {
        assert after == before[row := Granted(u.fields)];
        WithRow(before, row, Granted(u.fields));
      }
    }
  }

  lemma WithRow(grants: Grants, row: string, list: seq<string>)
    ensures Capable(grants[row := list]) <==> list != [] || Capable(grants - {row})
  {
    var after, others := grants[row := list], grants - {row};
    if list != [] { assert row in after && after[row] != []; }
    if Capable(others) {
      var x :| x in others && others[x] != [];
      assert x in after && after[x] != [];
    }
    if Capable(after) && list == [] {
      var x :| x in after && after[x] != [];
      assert x in others && others[x] != [];
    }
  }

  // ----- member rows that are really there

  datatype Member = Member(group: string, grants: seq<string>)

  type Rows = map<string, Member>

  /** A roster change as the verbs make it: a fresh row, a deleted row, a row with new permissions. */
  datatype Change =
    | Enrol(row: string, group: string, grants: seq<string>)
    | Dismiss(row: string)
    | Regrant(row: string, grants: seq<string>)

  function Plain(value: Value): Field<Value> { Leaf(value, "", None) }

  function AsUpdate(c: Change): Write
  {
    match c
    case Enrol(row, group, grants) =>
      Update(row, "groupMember", Put, map["group_id" := Plain(Text(group)), "permissions" := Plain(List(grants))])
    case Dismiss(row) => Update(row, "groupMember", Delete, map[])
    case Regrant(row, grants) => Update(row, "groupMember", Patch, map["permissions" := Plain(List(grants))])
  }

  predicate Accepted(r: Roster, live: Rows, c: Change)
  {
    match c
    case Enrol(row, _, _) => row !in r.group && row !in live
    case Dismiss(row) => !DismissalRefused(r, row)
    case Regrant(row, _) => !PatchRefused(r, row, AsUpdate(c).fields)
  }

  /** The rows after a change. */
  function Took(live: Rows, c: Change): Rows
  {
    match c
    case Enrol(row, group, grants) => live[row := Member(group, grants)]
    case Dismiss(row) => live - {row}
    case Regrant(row, grants) => if row in live then live[row := live[row].(grants := grants)] else live
  }

  ghost predicate HasAdmin(live: Rows, g: string)
  {
    exists row :: row in live && live[row].group == g && live[row].grants != []
  }

  /** The rosters hold the live rows, each under its group, with its permissions. */
  ghost predicate Mirrors(r: Roster, live: Rows)
  {
    && (forall row :: row in live ==>
          && row in r.group && r.group[row] == live[row].group
          && row in r.GrantsOf(live[row].group) && r.GrantsOf(live[row].group)[row] == live[row].grants)
    && (forall g, row :: row in r.GrantsOf(g) ==> row in live && live[row].group == g)
  }

  /** While the rosters mirror the rows, the guard refuses exactly the changes that lock a group out. */
  lemma GuardExact(r: Roster, live: Rows, c: Change)
    requires Mirrors(r, live) && !c.Enrol? && c.row in live && live[c.row].group in r.created
    ensures Accepted(r, live, c) <==> HasAdmin(Took(live, c), live[c.row].group)
  {
    var g, after := live[c.row].group, Took(live, c);
    var grants := r.GrantsOf(g);
    var left := if c.Dismiss? then (grants - {c.row}) + map[] else (grants - {}) + map[c.row := c.grants];
    if c.Regrant? { assert Granted(AsUpdate(c).fields) == c.grants; }
    assert Accepted(r, live, c) <==> Capable(left);
    forall row ensures row in left <==> row in after && after[row].group == g {
    }
    assert forall row :: row in left ==> left[row] == after[row].grants;
  }

  lemma EnrolMirrors(r: Roster, live: Rows, c: Change)
    requires Mirrors(r, live) && c.Enrol? && Accepted(r, live, c)
    ensures Mirrors(Enlisted(r, AsUpdate(c)), Took(live, c))
  {
    var r' := Enlisted(r, AsUpdate(c));
    assert StringField(AsUpdate(c).fields, "group_id") == Some(c.group) && Granted(AsUpdate(c).fields) == c.grants;
    assert r'.GrantsOf(c.group) == r.GrantsOf(c.group)[c.row := c.grants];
    assert forall g :: g != c.group ==> r'.GrantsOf(g) == r.GrantsOf(g);
  }

  lemma DismissMirrors(r: Roster, live: Rows, c: Change)
    requires Mirrors(r, live) && c.Dismiss?
    ensures Mirrors(Enlisted(r, AsUpdate(c)), Took(live, c))
  {
    var r', row := Enlisted(r, AsUpdate(c)), c.row;
    forall g ensures r'.GrantsOf(g) == r.GrantsOf(g) - {row} {
      if row in r.GrantsOf(g) { assert live[row].group == g; }
    }
  }

  lemma RegrantMirrors(r: Roster, live: Rows, c: Change)
    requires Mirrors(r, live) && c.Regrant?
    ensures Mirrors(Enlisted(r, AsUpdate(c)), Took(live, c)) <==> !(c.row in live && c.grants != live[c.row].grants)
  {
    assert Enlisted(r, AsUpdate(c)) == r;
    if c.row in live {
      var live' := Took(live, c);
      assert live'[c.row] == Member(live[c.row].group, c.grants);
      assert Mirrors(r, live') ==> r.GrantsOf(live'[c.row].group)[c.row] == c.grants;
      if c.grants == live[c.row].grants { assert live' == live; }
    }
  }

  /** A change keeps the rosters a mirror unless it is a patch that really changes permissions. */
  lemma MirrorsStep(r: Roster, live: Rows, c: Change)
    requires Mirrors(r, live) && Accepted(r, live, c)
    ensures Mirrors(Enlisted(r, AsUpdate(c)), Took(live, c))
            <==> !(c.Regrant? && c.row in live && c.grants != live[c.row].grants)
  {
    match c
    case Enrol(_, _, _) => EnrolMirrors(r, live, c);
    case Dismiss(_) => DismissMirrors(r, live, c);
    case Regrant(_, _) => RegrantMirrors(r, live, c);
  }

  /** The rosters list the live rows, each under its group. */
  ghost predicate Listed(r: Roster, live: Rows)
  {
    && (forall row :: row in live ==>
          row in r.group && r.group[row] == live[row].group && row in r.GrantsOf(live[row].group))
    && (forall g, row :: row in r.GrantsOf(g) ==> row in live && live[row].group == g)
  }

  /** And whoever they show with permissions has some. */
  ghost predicate Vouches(r: Roster, live: Rows)
  {
    && Listed(r, live)
    && forall g, row :: row in r.GrantsOf(g) && r.GrantsOf(g)[row] != [] ==> row in live && live[row].grants != []
  }

  /** No accepted change takes a created group's last administrator while the rosters vouch for the rows. */
  lemma StepKeepsAdmin(r: Roster, live: Rows, c: Change, g: string)
    requires Vouches(r, live) && Accepted(r, live, c) && g in r.created && HasAdmin(live, g)
    ensures HasAdmin(Took(live, c), g)
  {
    if !c.Enrol? && c.row in live && live[c.row].group == g {
      GuardVouches(r, live, c);
    } else {
      var row :| row in live && live[row].group == g && live[row].grants != [];
      assert row in Took(live, c) && Took(live, c)[row] == live[row];
    }
  }

  lemma GuardVouches(r: Roster, live: Rows, c: Change)
    requires Vouches(r, live) && Accepted(r, live, c)
    requires !c.Enrol? && c.row in live && live[c.row].group in r.created
    ensures HasAdmin(Took(live, c), live[c.row].group)
  {
    var g := live[c.row].group;
    var grants := r.GrantsOf(g);
    var left := if c.Dismiss? then (grants - {c.row}) + map[] else (grants - {}) + map[c.row := c.grants];
    if c.Regrant? { assert Granted(AsUpdate(c).fields) == c.grants; }
    assert Capable(left);
    var row :| row in left && left[row] != [];
    assert row in Took(live, c) && Took(live, c)[row].group == g && Took(live, c)[row].grants != [];
  }

  lemma EnrolGrants(r: Roster, c: Change, g: string)
    requires c.Enrol?
    ensures var r' := Enlisted(r, AsUpdate(c));
            && r'.group == r.group[c.row := c.group] && r'.created == r.created
            && r'.GrantsOf(g) == if g == c.group then r.GrantsOf(g)[c.row := c.grants] else r.GrantsOf(g)
  {
    assert StringField(AsUpdate(c).fields, "group_id") == Some(c.group) && Granted(AsUpdate(c).fields) == c.grants;
  }

  lemma DismissGrants(r: Roster, live: Rows, c: Change, g: string)
    requires Listed(r, live) && c.Dismiss?
    ensures var r' := Enlisted(r, AsUpdate(c));
            r'.group == r.group && r'.created == r.created && r'.GrantsOf(g) == r.GrantsOf(g) - {c.row}
  {
    if c.row in r.GrantsOf(g) { assert live[c.row].group == g; }
  }

  lemma EnrolListed(r: Roster, live: Rows, c: Change)
    requires Listed(r, live) && c.Enrol? && Accepted(r, live, c)
    ensures Listed(Enlisted(r, AsUpdate(c)), Took(live, c))
  {
    forall g { EnrolGrants(r, c, g); }
  }

  lemma DismissListed(r: Roster, live: Rows, c: Change)
    requires Listed(r, live) && c.Dismiss?
    ensures Listed(Enlisted(r, AsUpdate(c)), Took(live, c))
  {
    forall g { DismissGrants(r, live, c, g); }
  }

  /** Every accepted change keeps the live rows listed. */
  lemma ListedStep(r: Roster, live: Rows, c: Change)
    requires Listed(r, live) && Accepted(r, live, c)
    ensures Listed(Enlisted(r, AsUpdate(c)), Took(live, c)) && Enlisted(r, AsUpdate(c)).created == r.created
  {
    match c
    case Enrol(_, group, _) =>
      EnrolListed(r, live, c);
      EnrolGrants(r, c, group);
    case Dismiss(_) =>
      DismissListed(r, live, c);
      DismissGrants(r, live, c, "");
    case Regrant(_, _) => assert Enlisted(r, AsUpdate(c)) == r;
  }

  lemma EnrolVouches(r: Roster, live: Rows, c: Change)
    requires Vouches(r, live) && c.Enrol? && Accepted(r, live, c)
    ensures Vouches(Enlisted(r, AsUpdate(c)), Took(live, c))
  {
    EnrolListed(r, live, c);
    forall g { EnrolGrants(r, c, g); }
  }

  lemma DismissVouches(r: Roster, live: Rows, c: Change)
    requires Vouches(r, live) && c.Dismiss?
    ensures Vouches(Enlisted(r, AsUpdate(c)), Took(live, c))
  {
    DismissListed(r, live, c);
    forall g { DismissGrants(r, live, c, g); }
  }

  /** A patch that takes the permissions the roster still shows. */
  predicate Disarms(r: Roster, live: Rows, c: Change)
  {
    && c.Regrant? && c.grants == [] && c.row in live
    && c.row in r.GrantsOf(live[c.row].group) && r.GrantsOf(live[c.row].group)[c.row] != []
  }

  /** The rosters keep vouching for the rows through every change but such a patch. */
  lemma VouchesStep(r: Roster, live: Rows, c: Change)
    requires Vouches(r, live) && Accepted(r, live, c)
    ensures Vouches(Enlisted(r, AsUpdate(c)), Took(live, c)) <==> !Disarms(r, live, c)
  {
    match c
    case Enrol(_, _, _) => EnrolVouches(r, live, c);
    case Dismiss(_) => DismissVouches(r, live, c);
    case Regrant(_, _) =>
      assert Enlisted(r, AsUpdate(c)) == r;
      if Disarms(r, live, c) {
        assert Took(live, c)[c.row].grants == [];
      }
  }

  ghost predicate Changes(r: Roster, live: Rows, cs: seq<Change>)
    decreases |cs|
  {
    cs == [] || (Accepted(r, live, cs[0]) && Changes(Enlisted(r, AsUpdate(cs[0])), Took(live, cs[0]), cs[1..]))
  }

  function TookAll(live: Rows, cs: seq<Change>): Rows
    decreases |cs|
  {
    if cs == [] then live else TookAll(Took(live, cs[0]), cs[1..])
  }

  /** Only the last change, if any, takes all permissions from a member by a patch. */
  predicate DisarmsLast(cs: seq<Change>)
  {
    forall i :: 0 <= i < |cs| - 1 ==> !(cs[i].Regrant? && cs[i].grants == [])
  }

  /** A group keeps an administrator through every accepted run in which no patch but the last disarms a member. */
  lemma {:induction false} KeepsAdmin(r: Roster, live: Rows, cs: seq<Change>, g: string)
    requires Vouches(r, live) && Changes(r, live, cs) && g in r.created && HasAdmin(live, g) && DisarmsLast(cs)
    ensures HasAdmin(TookAll(live, cs), g)
    decreases |cs|
  {
    if cs != [] {
      StepKeepsAdmin(r, live, cs[0], g);
      if |cs| > 1 {
        VouchesStep(r, live, cs[0]);
        KeepsAdmin(Enlisted(r, AsUpdate(cs[0])), Took(live, cs[0]), cs[1..], g);
      } else {
        assert TookAll(live, cs) == Took(live, cs[0]);
      }
    }
  }

  /** The change dismisses or empties the one row of a group that still holds permissions. */
  predicate TakesLast(live: Rows, c: Change, g: string)
  {
    && (c.Dismiss? || (c.Regrant? && c.grants == []))
    && c.row in live && live[c.row].group == g && live[c.row].grants != []
    && forall row :: row in live && row != c.row && live[row].group == g ==> live[row].grants == []
  }

  /** The roster shows permissions of another member, who has none any more. */
  ghost predicate Misled(r: Roster, live: Rows, c: Change, g: string)
  {
    exists row :: row in r.GrantsOf(g) && r.GrantsOf(g)[row] != [] && row != c.row
                  && row in live && live[row].grants == []
  }

  /** An accepted change takes the last administrator by dismissing or emptying the one row that holds permissions. */
  lemma LastTakenExactly(r: Roster, live: Rows, c: Change, g: string)
    requires Listed(r, live) && Accepted(r, live, c) && g in r.created && HasAdmin(live, g)
    ensures !HasAdmin(Took(live, c), g) <==> TakesLast(live, c, g)
  {
    var row :| row in live && live[row].group == g && live[row].grants != [];
    var after := Took(live, c);
    if TakesLast(live, c, g) {
      assert forall x :: x in after && after[x].group == g ==> after[x].grants == [];
    } else if !c.Enrol? && c.row == row && !(c.Regrant? && c.grants != []) {
      var other :| other in live && other != c.row && live[other].group == g && live[other].grants != [];
      assert other in after && after[other] == live[other];
    } else {
      assert row in after && after[row].group == g && after[row].grants != [];
    }
  }

  lemma TakenMisled(r: Roster, live: Rows, c: Change, g: string)
    requires Listed(r, live) && Accepted(r, live, c) && g in r.created && TakesLast(live, c, g)
    ensures Misled(r, live, c, g)
  {
    var grants := r.GrantsOf(g);
    var left := if c.Dismiss? then (grants - {c.row}) + map[] else (grants - {}) + map[c.row := c.grants];
    if c.Regrant? { assert Granted(AsUpdate(c).fields) == c.grants; }
    assert Capable(left);
    var row :| row in left && left[row] != [];
    assert row in grants && grants[row] != [] && row != c.row;
  }

  /**
   * The guard lets a change that takes the last administrator pass exactly when
   * the roster still shows permissions of another member, who has none.
   */
  lemma GuardMisled(r: Roster, live: Rows, c: Change, g: string)
    requires Listed(r, live) && g in r.created && TakesLast(live, c, g)
    ensures Accepted(r, live, c) <==> Misled(r, live, c, g)
  {
    if Accepted(r, live, c) { TakenMisled(r, live, c, g); }
    if Misled(r, live, c, g) {
      var row :| row in r.GrantsOf(g) && r.GrantsOf(g)[row] != [] && row != c.row && row in live && live[row].grants == [];
      var grants := r.GrantsOf(g);
      var left := if c.Dismiss? then (grants - {c.row}) + map[] else (grants - {}) + map[c.row := c.grants];
      if c.Regrant? { assert Granted(AsUpdate(c).fields) == c.grants; }
      assert row in left && left[row] != [];
    }
  }

  // ----- runs in which the guards refuse

  /** The rosters after a change was tried; a refused one does nothing. */
  function TriedRoster(r: Roster, live: Rows, c: Change): Roster
  {
    if Accepted(r, live, c) then Enlisted(r, AsUpdate(c)) else r
  }

  function TriedRows(r: Roster, live: Rows, c: Change): Rows
  {
    if Accepted(r, live, c) then Took(live, c) else live
  }

  /** Any changes, as long as enrolled rows have fresh ids. */
  predicate Trials(r: Roster, live: Rows, cs: seq<Change>)
    decreases |cs|
  {
    cs == [] || ((cs[0].Enrol? ==> Accepted(r, live, cs[0]))
                 && Trials(TriedRoster(r, live, cs[0]), TriedRows(r, live, cs[0]), cs[1..]))
  }

  /** A group has an administrator all along a run. */
  ghost predicate AlwaysAdmin(r: Roster, live: Rows, cs: seq<Change>, g: string)
    decreases |cs|
  {
    HasAdmin(live, g) &&
    (cs == [] || AlwaysAdmin(TriedRoster(r, live, cs[0]), TriedRows(r, live, cs[0]), cs[1..], g))
  }

  /** A change that takes the last permissions of a group is tried while the roster is behind. */
  ghost predicate EverSlips(r: Roster, live: Rows, cs: seq<Change>, g: string)
    decreases |cs|
  {
    cs != [] &&
    (|| (TakesLast(live, cs[0], g) && Misled(r, live, cs[0], g))
     || EverSlips(TriedRoster(r, live, cs[0]), TriedRows(r, live, cs[0]), cs[1..], g))
  }

  lemma TriedExactly(r: Roster, live: Rows, c: Change, g: string)
    requires Listed(r, live) && g in r.created && HasAdmin(live, g) && (c.Enrol? ==> Accepted(r, live, c))
    ensures HasAdmin(TriedRows(r, live, c), g) <==> !(TakesLast(live, c, g) && Misled(r, live, c, g))
    ensures Listed(TriedRoster(r, live, c), TriedRows(r, live, c)) && TriedRoster(r, live, c).created == r.created
  {
    if TakesLast(live, c, g) { GuardMisled(r, live, c, g); }
    if Accepted(r, live, c) {
      LastTakenExactly(r, live, c, g);
      ListedStep(r, live, c);
    }
  }

  /**
   * Over every run of enrolments, dismissals and permission patches, refused ones
   * included, a created group has an administrator all along exactly when its
   * last one is never taken while the roster shows another who has none.
   */
  lemma {:induction false} KeepsAdminExactly(r: Roster, live: Rows, cs: seq<Change>, g: string)
    requires Listed(r, live) && Trials(r, live, cs) && g in r.created && HasAdmin(live, g)
    ensures AlwaysAdmin(r, live, cs, g) <==> !EverSlips(r, live, cs, g)
    decreases |cs|
  {
    if cs != [] {
      var c := cs[0];
      TriedExactly(r, live, c, g);
      if HasAdmin(TriedRows(r, live, c), g) {
        KeepsAdminExactly(TriedRoster(r, live, c), TriedRows(r, live, c), cs[1..], g);
      }
    }
  }

  /** A permission patch passes whenever the roster shows another capable member, and is not indexed. */
  lemma AnotherSuffices(r: Roster, live: Rows, c: Change, other: string)
    requires c.Regrant? && c.row in r.group && other != c.row
    requires other in r.GrantsOf(r.group[c.row]) && r.GrantsOf(r.group[c.row])[other] != []
    ensures Accepted(r, live, c) && Enlisted(r, AsUpdate(c)) == r
  {
    var left := (r.GrantsOf(r.group[c.row]) - {}) + map[c.row := Granted(AsUpdate(c).fields)];
    assert left[other] != [];
  }

  /**
   * A patch that names the group is never refused; filing the last capable row
   * there again with an empty list takes the roster's last administrator.
   */
  lemma RefilingSlips(r: Roster, row: string, g: string)
    requires g in r.created && !Capable(r.GrantsOf(g) - {row})
    ensures var patch := map["group_id" := Plain(Text(g)), "permissions" := Plain(List([]))];
            && !PatchRefused(r, row, patch)
            && !Capable(Enlisted(r, Update(row, "groupMember", Patch, patch)).GrantsOf(g))
  {
    var patch: Fields<Value> := map["group_id" := Plain(Text(g)), "permissions" := Plain(List([]))];
    assert StringField(patch, "group_id") == Some(g) && Granted(patch) == [];
    WithRow(r.GrantsOf(g), row, []);
  }

  const ADMINS: Grants := map["a" := ["admin"], "b" := ["admin"]]
  const BOTH: Roster := Roster({"g"}, map["g" := ADMINS], map["a" := "g", "b" := "g"])
  const BOTH_ROWS: Rows := map["a" := Member("g", ["admin"]), "b" := Member("g", ["admin"])]

  /** A group with two administrators, as an invocation creates it. */
  function Founded(): seq<Write>
  {
    [Update("g", "group", Put, map[]),
     AsUpdate(Enrol("a", "g", ["admin"])), AsUpdate(Enrol("b", "g", ["admin"]))]
  }

  lemma FoundedIsBoth()
    ensures EnlistedAll(NO_ROSTER, Founded()) == BOTH
  {
    var us := Founded();
    var r1 := Roster({"g"}, map[], map[]);
    var r2 := Roster({"g"}, map["g" := map["a" := ["admin"]]], map["a" := "g"]);
    assert us[..3] == us && us[..3][..2] == us[..2] && us[..2][..1] == us[..1] && us[..1][..0] == [];
    assert EnlistedAll(NO_ROSTER, us[..1]) == r1;
    EnrolStep(r1, "a");
    assert EnlistedAll(NO_ROSTER, us[..2]) == r2;
    EnrolStep(r2, "b");
  }

  lemma EnrolStep(r: Roster, row: string)
    ensures Enlisted(r, AsUpdate(Enrol(row, "g", ["admin"])))
            == r.(group := r.group[row := "g"], members := r.members["g" := r.GrantsOf("g")[row := ["admin"]]])
  {
    var u := AsUpdate(Enrol(row, "g", ["admin"]));
    assert StringField(u.fields, "group_id") == Some("g") && Granted(u.fields) == ["admin"];
  }

  /**
   * On a group founded by the invocation itself, two permission patches are one
   * too many: each passes, and together they lock the group out.
   */
  lemma TwoPatchesLockOut()
    ensures var r, cs := EnlistedAll(NO_ROSTER, Founded()), [Regrant("a", []), Regrant("b", [])];
            && Mirrors(r, BOTH_ROWS) && Changes(r, BOTH_ROWS, cs)
            && "g" in r.created && HasAdmin(BOTH_ROWS, "g") && !HasAdmin(TookAll(BOTH_ROWS, cs), "g")
  {
    FoundedIsBoth();
    BothMirrored();
    BothPatched();
  }

  lemma BothMirrored()
    ensures Mirrors(BOTH, BOTH_ROWS) && HasAdmin(BOTH_ROWS, "g")
  {
    assert BOTH_ROWS["a"].group == "g";
  }

  lemma BothPatched()
    ensures var cs := [Regrant("a", []), Regrant("b", [])];
            Changes(BOTH, BOTH_ROWS, cs) && !HasAdmin(TookAll(BOTH_ROWS, cs), "g")
  {
    var cs := [Regrant("a", []), Regrant("b", [])];
    var mid := Took(BOTH_ROWS, cs[0]);
    AnotherSuffices(BOTH, BOTH_ROWS, cs[0], "b");
    AnotherSuffices(BOTH, mid, cs[1], "a");
    assert cs[1..] == [cs[1]] && cs[1..][1..] == [];
    assert Changes(BOTH, mid, cs[1..]);
    assert TookAll(BOTH_ROWS, cs) == Took(mid, cs[1]);
  }

}
