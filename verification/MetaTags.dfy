/**
 The migration to canonical parent tags: reparenting every linked mapping, clearing self-parents and
 rescuing mappings whose StEvE key is gone. Any call to the database or to StEvE may fail.
*/
module MetaTags {
  import opened Wrappers

  /** The columns of a `user_mappings` row the passes read or write. */
  datatype Row = Row(idTag: string, pk: nat, lago: Option<string>, parent: Option<string>, active: bool)

  /** A tag as StEvE keeps it, under its unique id tag. */
  datatype Tag = Tag(pk: nat, parent: Option<string>, limit: int)

  type Rows = map<nat, Row>
  type Steve = map<string, Tag>

  /** What the run leaves and what it logged: failed steps, and pushes to StEvE it did not notice failing. */
  datatype World = World(rows: Rows, steve: Steve, done: nat, failures: nat, unpushed: nat)

  /** Which calls fail, by pass and row, and the key StEvE gives a new tag. */
  datatype Faults = Faults(
    db: (Pass, nat) -> bool,
    push: (Pass, nat) -> bool,
    lookup: nat -> bool,
    create: nat -> bool,
    newPk: Steve -> nat)

  datatype Pass = Reparent | Repair | Rescue

  // --- Tags --------------------------------------------------------------------------------------------

  /** The customer parents: `META-*`, and `OCPP-*` but not the device tags `OCPP-D-*`. */
  predicate IsGroupTag(t: string) {
    "META-" <= t || ("OCPP-" <= t && !("OCPP-D-" <= t))
  }

  /** The parent a customer's mappings must have; the legacy form when the customer has no user. */
  function Desired(publicIds: map<string, string>, lago: string): string {
    if lago in publicIds then "META-" + publicIds[lago] else "OCPP-" + lago
  }

  lemma CanonicalParentsAreGroups(publicIds: map<string, string>, lago: string)
    ensures lago in publicIds ==> IsGroupTag(Desired(publicIds, lago))
    ensures lago !in publicIds ==> (IsGroupTag(Desired(publicIds, lago)) <==> !("D-" <= lago))
  {
    var d := Desired(publicIds, lago);
    if lago in publicIds {
      assert d[..5] == "META-";
    } else {
      assert d[0] == 'O' && d[..5] == "OCPP-" && d[5..] == lago;
      if "D-" <= lago {
        assert d[5] == lago[0] == 'D' && d[6] == lago[1] == '-';
        assert d[..7] == "OCPP-D-";
      }
    }
  }

  // --- A pass that edits parents --------------------------------------------------------------------------

  predicate Live(s: Steve, pk: nat) {
    exists t :: t in s && s[t].pk == pk
  }

  /** The PUT of a row: the tag with the row's key takes the row's parent and the limit of its status. */
  function Pushed(s: Steve, r: Row): Steve {
    map t | t in s :: if s[t].pk == r.pk then PushedTag(r) else s[t]
  }

  function PushedTag(r: Row): Tag {
    Tag(r.pk, r.parent, if r.active then -1 else 0)
  }

  /** What a pass wants of a row: the parent to give it, if any. */
  type Choice = Row -> Option<Option<string>>

  function EditRow(f: Faults, pass: Pass, choose: Choice, w: World, id: nat): World
    requires id in w.rows
  {
    var c := choose(w.rows[id]);
    if c == None then w
    else if f.db(pass, id) then w.(failures := w.failures + 1)
    else
      var r := w.rows[id].(parent := c.value);
      if f.push(pass, id) || !Live(w.steve, r.pk)
      then w.(rows := w.rows[id := r], done := w.done + 1, unpushed := w.unpushed + 1)
      else w.(rows := w.rows[id := r], done := w.done + 1, steve := Pushed(w.steve, r))
  }

  function EditAll(f: Faults, pass: Pass, choose: Choice, w: World, ids: seq<nat>): (w': World)
    requires forall id :: id in ids ==> id in w.rows
    ensures w'.rows.Keys == w.rows.Keys
  {
    if ids == [] then w
    else
      var n := |ids| - 1;
      assert ids[n] in ids;
      EditRow(f, pass, choose, EditAll(f, pass, choose, w, ids[..n]), ids[n])
  }

  /** A linked mapping that is no group tag gets its customer's parent unless it has it. */
  function ReparentChoice(publicIds: map<string, string>): Choice {
    (r: Row) =>
      if r.lago == None || r.lago.value == "" || IsGroupTag(r.idTag) then None
      else if r.parent == Some(Desired(publicIds, r.lago.value)) then None
      else Some(Some(Desired(publicIds, r.lago.value)))
  }

  /** A mapping that is its own parent loses it. */
  function RepairChoice(): Choice {
    (r: Row) => if r.parent == Some(r.idTag) then Some(None) else None
  }

  /** The row as the pass leaves it. */
  function EditedRow(f: Faults, pass: Pass, choose: Choice, r: Row, id: nat): Row {
    if choose(r).Some? && !f.db(pass, id) then r.(parent := choose(r).value) else r
  }

  lemma EditStep(f: Faults, pass: Pass, choose: Choice, w: World, ids: seq<nat>, i: nat)
    requires (forall id :: id in ids ==> id in w.rows) && i < |ids|
    ensures (forall id :: id in ids[..i + 1] ==> id in ids) && (forall id :: id in ids[..i] ==> id in ids) && ids[i] in ids
    ensures EditAll(f, pass, choose, w, ids[..i + 1]) == EditRow(f, pass, choose, EditAll(f, pass, choose, w, ids[..i]), ids[i])
  {
    hide EditRow;
    assert ids[..i + 1][..i] == ids[..i];
  }

  /** One edit in terms of its row and, if its push goes through, of StEvE. */
  lemma EditRowIs(f: Faults, pass: Pass, choose: Choice, w: World, id: nat)
    requires id in w.rows
    ensures var w', c := EditRow(f, pass, choose, w, id), choose(w.rows[id]);
            var r := EditedRow(f, pass, choose, w.rows[id], id);
            && w'.rows == w.rows[id := r]
            && w'.failures == w.failures + (if c.Some? && f.db(pass, id) then 1 else 0)
            && w'.done == w.done + (if c.Some? && !f.db(pass, id) then 1 else 0)
            && w'.steve == (if c.Some? && !f.db(pass, id) && !f.push(pass, id) then Pushed(w.steve, r) else w.steve)
  {
    var r := EditedRow(f, pass, choose, w.rows[id], id);
    assert w.rows == w.rows[id := w.rows[id]];
    assert !Live(w.steve, r.pk) ==> Pushed(w.steve, r) == w.steve;
  }

  // --- The rescue pass ----------------------------------------------------------------------------------------

  /** Another row holds the key, which the column's unique constraint does not allow twice. */
  predicate KeyTaken(rows: Rows, id: nat, pk: nat) {
    exists j :: j in rows && j != id && rows[j].pk == pk
  }

  function RescueRow(f: Faults, w: World, id: nat): World
    requires id in w.rows
  {
    var r := w.rows[id];
    if IsGroupTag(r.idTag) then w
    else if f.lookup(id) then w.(failures := w.failures + 1)
    else if r.idTag in w.steve then
      var pk := w.steve[r.idTag].pk;
      if pk == r.pk then w
      else if f.db(Rescue, id) || KeyTaken(w.rows, id, pk) then w.(failures := w.failures + 1)
      else w.(rows := w.rows[id := r.(pk := pk)], done := w.done + 1)
    else if f.create(id) then w.(failures := w.failures + 1)
    else
      var pk := f.newPk(w.steve);
      var s := w.steve[r.idTag := Tag(pk, r.parent, 1)];
      if f.db(Rescue, id) || KeyTaken(w.rows, id, pk) then w.(steve := s, failures := w.failures + 1)
      else w.(steve := s, rows := w.rows[id := r.(pk := pk)], done := w.done + 1)
  }

  function RescueAll(f: Faults, w: World, ids: seq<nat>): (w': World)
    requires forall id :: id in ids ==> id in w.rows
    ensures w'.rows.Keys == w.rows.Keys
  {
    if ids == [] then w
    else
      var n := |ids| - 1;
      assert ids[n] in ids;
      RescueRow(f, RescueAll(f, w, ids[..n]), ids[n])
  }

  lemma RescueStep(f: Faults, w: World, ids: seq<nat>, i: nat)
    requires (forall id :: id in ids ==> id in w.rows) && i < |ids|
    ensures (forall id :: id in ids[..i + 1] ==> id in ids) && (forall id :: id in ids[..i] ==> id in ids) && ids[i] in ids
    ensures RescueAll(f, w, ids[..i + 1]) == RescueRow(f, RescueAll(f, w, ids[..i]), ids[i])
  {
    hide RescueRow;
    assert ids[..i + 1][..i] == ids[..i];
  }

  // --- The run ----------------------------------------------------------------------------------------------------

  /** The order in which a query returns the rows it selects. */
  type Order = set<nat> -> seq<nat>

  ghost predicate Lists(order: Order) {
    forall s :: (forall id :: id in order(s) <==> id in s) && Distinct(order(s))
  }

  ghost predicate Distinct(ids: seq<nat>) {
    forall i, j :: 0 <= i < j < |ids| ==> ids[i] != ids[j]
  }

  function LinkedRows(rows: Rows): set<nat> {
    set id | id in rows && rows[id].lago.Some?
  }

  function SelfParented(rows: Rows): set<nat> {
    set id | id in rows && rows[id].parent == Some(rows[id].idTag)
  }

  function ActiveRows(rows: Rows): set<nat> {
    set id | id in rows && rows[id].active
  }

  ghost function Reparented(f: Faults, publicIds: map<string, string>, order: Order, w: World): (w': World)
    requires Lists(order)
    ensures w'.rows.Keys == w.rows.Keys
  {
    EditAll(f, Reparent, ReparentChoice(publicIds), w, order(LinkedRows(w.rows)))
  }

  ghost function Repaired(f: Faults, order: Order, w: World): (w': World)
    requires Lists(order)
    ensures w'.rows.Keys == w.rows.Keys
  {
    EditAll(f, Repair, RepairChoice(), w, order(SelfParented(w.rows)))
  }

  ghost function Rescued(f: Faults, order: Order, w: World): (w': World)
    requires Lists(order)
    ensures w'.rows.Keys == w.rows.Keys
  {
    RescueAll(f, w, order(ActiveRows(w.rows)))
  }

  /** The three passes of an applied run, each over its own fresh selection. */
  ghost function Run(f: Faults, publicIds: map<string, string>, order: Order, w: World): (w': World)
    requires Lists(order)
    ensures w'.rows.Keys == w.rows.Keys
  {
    Rescued(f, order, Repaired(f, order, Reparented(f, publicIds, order, w)))
  }

  datatype UserRow = UserRow(lago: Option<string>, publicId: string)

  function PublicIds(users: seq<UserRow>): map<string, string> {
    if users == [] then map[]
    else
      var u := users[|users| - 1];
      var m := PublicIds(users[..|users| - 1]);
      if u.lago.Some? && u.lago.value != "" && u.publicId != "" then m[u.lago.value := u.publicId] else m
  }

  /** A users row that gives a customer its public id. */
  ghost predicate Names(u: UserRow, lago: string) {
    u.lago == Some(lago) && lago != "" && u.publicId != ""
  }

  /** The last such row. */
  ghost predicate LastNaming(users: seq<UserRow>, lago: string, k: int) {
    0 <= k < |users| && Names(users[k], lago) && forall j :: k < j < |users| ==> !Names(users[j], lago)
  }

  /**
   The parent of a customer's cards: `META-` and the public id of the last users row naming the customer, or
   `OCPP-` and the Lago id when no row does.
  */
  ghost predicate IsParentOf(users: seq<UserRow>, lago: string, parent: string) {
    if exists k :: LastNaming(users, lago, k)
    then exists k :: LastNaming(users, lago, k) && parent == "META-" + users[k].publicId
    else parent == "OCPP-" + lago
  }

  lemma {:induction false} PublicIdsAre(users: seq<UserRow>, lago: string)
    ensures forall k :: LastNaming(users, lago, k) ==> lago in PublicIds(users) && PublicIds(users)[lago] == users[k].publicId
    ensures lago in PublicIds(users) ==> exists k :: LastNaming(users, lago, k)
  {
    if users != [] {
      var n := |users| - 1;
      PublicIdsAre(users[..n], lago);
      forall k | LastNaming(users, lago, k) && k < n
        ensures LastNaming(users[..n], lago, k)
      {
        assert !Names(users[n], lago);
      }
      if Names(users[n], lago) {
        assert LastNaming(users, lago, n);
      } else if lago in PublicIds(users[..n]) {
        var k :| LastNaming(users[..n], lago, k);
        assert LastNaming(users, lago, k);
      }
    }
  }

  lemma DesiredIsTheParent(users: seq<UserRow>, lago: string)
    ensures forall parent :: IsParentOf(users, lago, parent) <==> parent == Desired(PublicIds(users), lago)
  {
    hide PublicIds, LastNaming;
    PublicIdsAre(users, lago);
  }

  /** The rows the passes treat as cards: linked, and neither `META-*` nor `OCPP-*` without being `OCPP-D-*`. */
  ghost predicate IsLinkedCard(r: Row) {
    && r.lago.Some? && r.lago.value != ""
    && !("META-" <= r.idTag) && ("OCPP-" <= r.idTag ==> "OCPP-D-" <= r.idTag)
  }

  /** Every linked card is under its customer's parent, unless it is that itself. */
  ghost predicate UnderParents(users: seq<UserRow>, rows: Rows) {
    forall id, parent ::
      id in rows && IsLinkedCard(rows[id]) && IsParentOf(users, rows[id].lago.value, parent) && parent != rows[id].idTag
      ==> rows[id].parent == Some(parent)
  }

  lemma ConvergedIsUnderParents(users: seq<UserRow>, rows: Rows, steve: Steve)
    requires Converged(PublicIds(users), rows, steve)
    ensures UnderParents(users, rows)
  {
    hide IsParentOf, PublicIds, Desired;
    forall id, parent | id in rows && IsLinkedCard(rows[id]) && IsParentOf(users, rows[id].lago.value, parent) && parent != rows[id].idTag
      ensures rows[id].parent == Some(parent)
    {
      DesiredIsTheParent(users, rows[id].lago.value);
      assert Settled(PublicIds(users), rows[id], steve);
    }
  }

  class Migration {
    var rows: Rows
    var steve: Steve
    var done: nat
    var failures: nat
    var unpushed: nat

    constructor (rows: Rows, steve: Steve)
      ensures Now() == World(rows, steve, 0, 0, 0)
    {
      this.rows, this.steve, done, failures, unpushed := rows, steve, 0, 0, 0;
    }

    function Now(): World
      reads this
    {
      World(rows, steve, done, failures, unpushed)
    }

    /** `syncSingleTagToSteve`: pushes a row to StEvE and never throws. */
    method SyncSingleTag(f: Faults, pass: Pass, id: nat)
      requires id in rows
      modifies this`steve, this`unpushed
      ensures steve == if f.push(pass, id) || !Live(old(steve), rows[id].pk) then old(steve) else Pushed(old(steve), rows[id])
      ensures unpushed == old(unpushed) + if f.push(pass, id) || !Live(old(steve), rows[id].pk) then 1 else 0
    {
      if f.push(pass, id) || !Live(steve, rows[id].pk) {
        unpushed := unpushed + 1;
      } else {
        steve := Pushed(steve, rows[id]);
      }
    }

    /** One turn of the reparent loop. */
    method ReparentRow(f: Faults, publicIds: map<string, string>, id: nat)
      requires id in rows
      modifies this
      ensures Now() == EditRow(f, Reparent, ReparentChoice(publicIds), old(Now()), id)
    {
      hide IsGroupTag, Desired, Pushed;
      var m := rows[id];
      if m.lago == None || m.lago.value == "" {
        return;
      }
      if IsGroupTag(m.idTag) {
        return;
      }
      var desired := Desired(publicIds, m.lago.value);
      if m.parent == Some(desired) {
        return;
      }
      if f.db(Reparent, id) {
        failures := failures + 1;
      } else {
        rows := rows[id := m.(parent := Some(desired))];
        SyncSingleTag(f, Reparent, id);
        done := done + 1;
      }
    }

    method ReparentPass(f: Faults, publicIds: map<string, string>, ids: seq<nat>)
      requires forall id :: id in ids ==> id in rows
      modifies this
      ensures Now() == EditAll(f, Reparent, ReparentChoice(publicIds), old(Now()), ids)
    {
      hide EditRow, EditAll, ReparentChoice;
      EditNone(f, Reparent, ReparentChoice(publicIds), Now());
      for i := 0 to |ids|
        invariant rows.Keys == old(rows.Keys)
        invariant forall id :: id in ids[..i] ==> id in ids
        invariant Now() == EditAll(f, Reparent, ReparentChoice(publicIds), old(Now()), ids[..i])
      {
        EditStep(f, Reparent, ReparentChoice(publicIds), old(Now()), ids, i);
        ReparentRow(f, publicIds, ids[i]);
      }
      assert ids[..|ids|] == ids;
    }

    /** One turn of the repair loop, on a row that is its own parent. */
    method RepairRow(f: Faults, id: nat)
      requires id in rows && rows[id].parent == Some(rows[id].idTag)
      modifies this
      ensures Now() == EditRow(f, Repair, RepairChoice(), old(Now()), id)
      ensures forall j :: j in rows && j != id ==> rows[j] == old(rows)[j]
    {
      hide Pushed;
      if f.db(Repair, id) {
        failures := failures + 1;
      } else {
        rows := rows[id := rows[id].(parent := None)];
        SyncSingleTag(f, Repair, id);
        done := done + 1;
      }
    }

    method RepairPass(f: Faults, ids: seq<nat>)
      requires forall id :: id in ids ==> id in rows && rows[id].parent == Some(rows[id].idTag)
      requires Distinct(ids)
      modifies this
      ensures Now() == EditAll(f, Repair, RepairChoice(), old(Now()), ids)
    {
      hide EditRow, EditAll, RepairChoice;
      EditNone(f, Repair, RepairChoice(), Now());
      for i := 0 to |ids|
        invariant rows.Keys == old(rows.Keys)
        invariant forall k :: i <= k < |ids| ==> ids[k] in rows && rows[ids[k]] == old(rows)[ids[k]]
        invariant forall id :: id in ids[..i] ==> id in ids
        invariant Now() == EditAll(f, Repair, RepairChoice(), old(Now()), ids[..i])
      {
        EditStep(f, Repair, RepairChoice(), old(Now()), ids, i);
        RepairRow(f, ids[i]);
      }
      assert ids[..|ids|] == ids;
    }

    /** One turn of the rescue loop. */
    method RescueOne(f: Faults, id: nat)
      requires id in rows
      modifies this
      ensures Now() == RescueRow(f, old(Now()), id)
    {
      hide IsGroupTag;
      var m := rows[id];
      if IsGroupTag(m.idTag) {
        return;
      }
      if f.lookup(id) {
        failures := failures + 1;
        return;
      }
      var stillThere := m.idTag in steve && steve[m.idTag].pk == m.pk;
      if m.idTag in steve && steve[m.idTag].pk != m.pk {
        if f.db(Rescue, id) || KeyTaken(rows, id, steve[m.idTag].pk) {
          failures := failures + 1;
          return;
        }
        rows := rows[id := m.(pk := steve[m.idTag].pk)];
        done := done + 1;
        return;
      }
      if stillThere {
        return;
      }
      if f.create(id) {
        failures := failures + 1;
        return;
      }
      var pk := f.newPk(steve);
      steve := steve[m.idTag := Tag(pk, m.parent, 1)];
      if f.db(Rescue, id) || KeyTaken(rows, id, pk) {
        failures := failures + 1;
        return;
      }
      rows := rows[id := m.(pk := pk)];
      done := done + 1;
    }

    method RescuePass(f: Faults, ids: seq<nat>)
      requires forall id :: id in ids ==> id in rows
      modifies this
      ensures Now() == RescueAll(f, old(Now()), ids)
    {
      hide RescueRow, RescueAll;
      RescueNone(f, Now());
      for i := 0 to |ids|
        invariant rows.Keys == old(rows.Keys)
        invariant forall id :: id in ids[..i] ==> id in ids
        invariant Now() == RescueAll(f, old(Now()), ids[..i])
      {
        RescueStep(f, old(Now()), ids, i);
        RescueOne(f, ids[i]);
      }
      assert ids[..|ids|] == ids;
    }

    /** An applied run: the passes in order, each over a fresh selection. */
    method Migrate(f: Faults, users: seq<UserRow>, order: Order)
      requires Lists(order)
      modifies this
      ensures Now() == Run(f, PublicIds(users), order, old(Now()))
      ensures failures == old(failures) ==> UnderParents(users, rows)
    {
      ghost var before := Now();
      var externalToPublic: map<string, string> := map[];
      for i := 0 to |users|
        invariant externalToPublic == PublicIds(users[..i])
        invariant Now() == old(Now())
      {
        assert users[..i + 1][..i] == users[..i];
        var u := users[i];
        if u.lago.Some? && u.lago.value != "" && u.publicId != "" {
          externalToPublic := externalToPublic[u.lago.value := u.publicId];
        }
      }
      assert users[..|users|] == users;
      hide EditAll, RescueAll, ReparentChoice, RepairChoice;
      ReparentPass(f, externalToPublic, order(LinkedRows(rows)));
      RepairPass(f, order(SelfParented(rows)));
      RescuePass(f, order(ActiveRows(rows)));
      hide Reparented, Repaired, Rescued, Converged, UnderParents, Lists;
      if failures == before.failures {
        CleanRunConverges(f, PublicIds(users), order, before);
        ConvergedIsUnderParents(users, rows, steve);
      }
    }
  }

  lemma EditNone(f: Faults, pass: Pass, choose: Choice, w: World)
    ensures EditAll(f, pass, choose, w, []) == w
  {
  }

  lemma RescueNone(f: Faults, w: World)
    ensures RescueAll(f, w, []) == w
  {
  }

  // --- What a parent-editing pass does -------------------------------------------------------------------------

  ghost predicate UniqueKeys(rows: Rows) {
    forall i, j :: i in rows && j in rows && i != j ==> rows[i].pk != rows[j].pk
  }

  /** The row the pass edits, when its UPDATE succeeds. */
  ghost predicate Edited(f: Faults, pass: Pass, choose: Choice, rows: Rows, ids: seq<nat>, id: nat) {
    id in ids && id in rows && choose(rows[id]).Some? && !f.db(pass, id)
  }

  /** Each row of the selection is edited independently and once; no failure means no UPDATE failed. */
  lemma {:induction false} EditAllRows(f: Faults, pass: Pass, choose: Choice, w: World, ids: seq<nat>)
    requires (forall id :: id in ids ==> id in w.rows) && Distinct(ids)
    ensures var w' := EditAll(f, pass, choose, w, ids);
            && (forall id :: id in w.rows ==> w'.rows[id] == if id in ids then EditedRow(f, pass, choose, w.rows[id], id) else w.rows[id])
            && w'.failures >= w.failures && w'.done >= w.done
            && (w'.failures == w.failures <==> forall id :: id in ids && choose(w.rows[id]).Some? ==> !f.db(pass, id))
            && (w'.done == w.done <==> forall id :: id in ids && choose(w.rows[id]).Some? ==> f.db(pass, id))
  {
    hide EditAll, EditRow, EditedRow;
    if ids == [] {
      EditNone(f, pass, choose, w);
    } else {
      var n := |ids| - 1;
      assert ids == ids[..n + 1] == ids[..n] + [ids[n]] && ids[n] !in ids[..n];
      EditStep(f, pass, choose, w, ids, n);
      EditAllRows(f, pass, choose, w, ids[..n]);
      EditRowIs(f, pass, choose, EditAll(f, pass, choose, w, ids[..n]), ids[n]);
    }
  }

  /** StEvE's tags under the pass: a tag changes only by a push of the row with its key. */
  lemma {:induction false} EditAllTags(f: Faults, pass: Pass, choose: Choice, w: World, ids: seq<nat>, t: string)
    requires (forall id :: id in ids ==> id in w.rows) && Distinct(ids) && UniqueKeys(w.rows) && t in w.steve
    ensures var w' := EditAll(f, pass, choose, w, ids);
            && w'.steve.Keys == w.steve.Keys && w'.steve[t].pk == w.steve[t].pk
            && (forall id :: Edited(f, pass, choose, w.rows, ids, id) && w.rows[id].pk == w.steve[t].pk ==>
                  w'.steve[t] == if f.push(pass, id) then w.steve[t] else PushedTag(EditedRow(f, pass, choose, w.rows[id], id)))
            && ((forall id :: Edited(f, pass, choose, w.rows, ids, id) ==> w.rows[id].pk != w.steve[t].pk) ==> w'.steve[t] == w.steve[t])
  {
    hide EditAll, EditRow, EditedRow;
    if ids == [] {
      EditNone(f, pass, choose, w);
    } else {
      var n := |ids| - 1;
      var v := EditAll(f, pass, choose, w, ids[..n]);
      assert ids == ids[..n + 1] == ids[..n] + [ids[n]] && ids[n] !in ids[..n];
      EditStep(f, pass, choose, w, ids, n);
      EditAllTags(f, pass, choose, w, ids[..n], t);
      EditAllRows(f, pass, choose, w, ids[..n]);
      EditOneTag(f, pass, choose, v, ids[n], t);
      EditedLater(f, pass, choose, w.rows, ids);
      hide PushedTag;
    }
  }

  /** The tag changes iff the edit is pushed and has its key. */
  lemma EditOneTag(f: Faults, pass: Pass, choose: Choice, v: World, id: nat, t: string)
    requires id in v.rows && t in v.steve
    ensures var v', r := EditRow(f, pass, choose, v, id), EditedRow(f, pass, choose, v.rows[id], id);
            && v'.steve.Keys == v.steve.Keys
            && v'.steve[t].pk == v.steve[t].pk
            && v'.steve[t] == if choose(v.rows[id]).Some? && !f.db(pass, id) && !f.push(pass, id) && v.rows[id].pk == v.steve[t].pk
                              then PushedTag(r) else v.steve[t]
  {
    hide EditRow, EditedRow;
    EditRowIs(f, pass, choose, v, id);
    EditKeepsPk(f, pass, choose, v.rows[id], id);
  }

  lemma EditKeepsPk(f: Faults, pass: Pass, choose: Choice, r: Row, id: nat)
    ensures EditedRow(f, pass, choose, r, id).pk == r.pk
  {
  }

  lemma EditedLater(f: Faults, pass: Pass, choose: Choice, rows: Rows, ids: seq<nat>)
    requires ids != []
    ensures var n := |ids| - 1;
            forall id :: Edited(f, pass, choose, rows, ids, id) <==>
              Edited(f, pass, choose, rows, ids[..n], id) || (id == ids[n] && Edited(f, pass, choose, rows, ids, ids[n]))
  {
    assert ids == ids[..|ids| - 1] + [ids[|ids| - 1]];
  }

  // --- The rescue pass, row by row ------------------------------------------------------------------------------

  lemma RescueRowIs(f: Faults, w: World, id: nat)
    requires id in w.rows
    ensures var w', t := RescueRow(f, w, id), w.rows[id].idTag;
            && (exists pk :: w'.rows == w.rows[id := w.rows[id].(pk := pk)])
            && (forall t :: t in w.steve ==> t in w'.steve && w'.steve[t] == w.steve[t])
            && w'.failures >= w.failures && w'.done >= w.done && w'.unpushed == w.unpushed
            && (w'.failures == w.failures && !IsGroupTag(t) ==> t in w'.steve && w'.steve[t].pk == w'.rows[id].pk)
            && (IsGroupTag(t) || (t in w.steve && w.steve[t].pk == w.rows[id].pk) ==>
                  w'.rows == w.rows && w'.steve == w.steve && w'.done == w.done)
  {
    hide IsGroupTag, KeyTaken;
    assert w.rows == w.rows[id := w.rows[id].(pk := w.rows[id].pk)];
    var pk := RescueRow(f, w, id).rows[id].pk;
    assert RescueRow(f, w, id).rows == w.rows[id := w.rows[id].(pk := pk)];
  }

  /** After the pass without failures every scanned card's key is StEvE's; nothing but keys moved. */
  lemma {:induction false} RescueAllRows(f: Faults, w: World, ids: seq<nat>)
    requires (forall id :: id in ids ==> id in w.rows) && Distinct(ids)
    ensures var w' := RescueAll(f, w, ids);
            && (forall id :: id in w.rows ==> w'.rows[id].(pk := w.rows[id].pk) == w.rows[id])
            && (forall id :: id in w.rows && id !in ids ==> w'.rows[id] == w.rows[id])
            && (forall t :: t in w.steve ==> t in w'.steve && w'.steve[t] == w.steve[t])
            && w'.failures >= w.failures && w'.done >= w.done
            && (w'.failures == w.failures ==> forall id :: id in ids && !IsGroupTag(w.rows[id].idTag) ==>
                  w.rows[id].idTag in w'.steve && w'.steve[w.rows[id].idTag].pk == w'.rows[id].pk)
  {
    hide RescueAll, RescueRow, IsGroupTag;
    if ids == [] {
      RescueNone(f, w);
    } else {
      var n := |ids| - 1;
      var v := RescueAll(f, w, ids[..n]);
      assert ids == ids[..n + 1] == ids[..n] + [ids[n]] && ids[n] !in ids[..n];
      RescueStep(f, w, ids, n);
      RescueAllRows(f, w, ids[..n]);
      RescueRowIs(f, v, ids[n]);
    }
  }

  /** A tag the rescue makes is some card's, with the card's parent and one transaction at a time. */
  lemma {:induction false} RecreatedTags(f: Faults, w: World, ids: seq<nat>, t: string)
    requires (forall id :: id in ids ==> id in w.rows) && Distinct(ids)
    requires t in RescueAll(f, w, ids).steve && t !in w.steve
    ensures exists id :: id in ids && w.rows[id].idTag == t
              && RescueAll(f, w, ids).steve[t].parent == w.rows[id].parent && RescueAll(f, w, ids).steve[t].limit == 1
  {
    hide RescueAll, RescueRow, IsGroupTag;
    if ids == [] {
      RescueNone(f, w);
    } else {
      var n := |ids| - 1;
      var v := RescueAll(f, w, ids[..n]);
      assert ids == ids[..n + 1] == ids[..n] + [ids[n]] && ids[n] in ids;
      RescueStep(f, w, ids, n);
      RescueAllRows(f, w, ids[..n]);
      RescueRowIs(f, v, ids[n]);
      RecreatedTag(f, v, ids[n]);
      if t in v.steve {
        RecreatedTags(f, w, ids[..n], t);
      }
    }
  }

  lemma RecreatedTag(f: Faults, w: World, id: nat)
    requires id in w.rows
    ensures forall t :: t in RescueRow(f, w, id).steve && t !in w.steve ==>
              t == w.rows[id].idTag && RescueRow(f, w, id).steve[t].parent == w.rows[id].parent && RescueRow(f, w, id).steve[t].limit == 1
  {
    hide IsGroupTag, KeyTaken;
  }

  // --- The theorems ------------------------------------------------------------------------------------------------

  ghost predicate LinkedCard(r: Row) {
    r.lago.Some? && r.lago.value != "" && !IsGroupTag(r.idTag)
  }

  /** The parent a row must have, for rows that must have one. */
  function Wanted(publicIds: map<string, string>, r: Row): string
    requires r.lago.Some?
  {
    Desired(publicIds, r.lago.value)
  }

  lemma Choices(publicIds: map<string, string>, r: Row)
    ensures var c := ReparentChoice(publicIds)(r);
            && (c.Some? <==> LinkedCard(r) && r.parent != Some(Wanted(publicIds, r)))
            && (c.Some? ==> c.value == Some(Wanted(publicIds, r)))
    ensures var c := RepairChoice()(r); c == if r.parent == Some(r.idTag) then Some(None) else None
  {
    hide IsGroupTag, Desired;
  }

  /** Pass by pass, whatever fails: each row is settled by its own UPDATE, and by nothing else. */
  lemma ReparentedRows(f: Faults, publicIds: map<string, string>, order: Order, w: World)
    requires Lists(order)
    ensures var w' := Reparented(f, publicIds, order, w);
            && (forall id :: id in w.rows ==> w'.rows[id] == w.rows[id].(parent := FirstParent(f, publicIds, w.rows[id], id)))
            && w'.failures >= w.failures && w'.done >= w.done
            && (w'.failures == w.failures <==> forall id :: id in w.rows && NeedsParent(publicIds, w.rows[id]) ==> !f.db(Reparent, id))
            && (w'.done == w.done <==> forall id :: id in w.rows && NeedsParent(publicIds, w.rows[id]) ==> f.db(Reparent, id))
  {
    hide IsGroupTag, Desired, EditAll, ReparentChoice;
    EditAllRows(f, Reparent, ReparentChoice(publicIds), w, order(LinkedRows(w.rows)));
    forall r: Row ensures ReparentChoice(publicIds)(r).Some? <==> NeedsParent(publicIds, r)
                  ensures NeedsParent(publicIds, r) ==> ReparentChoice(publicIds)(r).value == Some(Wanted(publicIds, r))
    {
      Choices(publicIds, r);
    }
  }

  lemma RepairedRows(f: Faults, order: Order, w: World)
    requires Lists(order)
    ensures var w' := Repaired(f, order, w);
            && (forall id :: id in w.rows ==> w'.rows[id] == w.rows[id].(parent := SecondParent(f, w.rows[id], id)))
            && w'.failures >= w.failures && w'.done >= w.done
            && (w'.failures == w.failures <==>
                  forall id :: id in w.rows && w.rows[id].parent == Some(w.rows[id].idTag) ==> !f.db(Repair, id))
            && ((forall id :: id in w.rows ==> w.rows[id].parent != Some(w.rows[id].idTag)) ==> w' == w)
  {
    hide EditAll;
    EditAllRows(f, Repair, RepairChoice(), w, order(SelfParented(w.rows)));
    if forall id :: id in w.rows ==> w.rows[id].parent != Some(w.rows[id].idTag) {
      IdleEdit(f, Repair, RepairChoice(), w, order(SelfParented(w.rows)));
    }
  }

  /** The row's parent must be rewritten. */
  ghost predicate NeedsParent(publicIds: map<string, string>, r: Row) {
    LinkedCard(r) && r.parent != Some(Wanted(publicIds, r))
  }

  ghost function FirstParent(f: Faults, publicIds: map<string, string>, r: Row, id: nat): Option<string> {
    if NeedsParent(publicIds, r) && !f.db(Reparent, id) then Some(Wanted(publicIds, r)) else r.parent
  }

  ghost function SecondParent(f: Faults, r: Row, id: nat): Option<string> {
    if r.parent == Some(r.idTag) && !f.db(Repair, id) then None else r.parent
  }

  /** Under any failures a row keeps all but its parent and its key, and its parent follows from its own two UPDATEs. */
  lemma RunParents(f: Faults, publicIds: map<string, string>, order: Order, w: World, id: nat)
    requires Lists(order) && id in w.rows
    ensures var r := w.rows[id];
            var r1 := r.(parent := FirstParent(f, publicIds, r, id));
            Run(f, publicIds, order, w).rows[id].(pk := r.pk) == r1.(parent := SecondParent(f, r1, id))
  {
    hide IsGroupTag, Desired, Reparented, Repaired, FirstParent, SecondParent, RescueAll;
    var w1 := Reparented(f, publicIds, order, w);
    var w2 := Repaired(f, order, w1);
    ReparentedRows(f, publicIds, order, w);
    RepairedRows(f, order, w1);
    RescueAllRows(f, w2, order(ActiveRows(w2.rows)));
  }

  ghost predicate Converged(publicIds: map<string, string>, rows: Rows, steve: Steve) {
    forall id :: id in rows ==> Settled(publicIds, rows[id], steve)
  }

  /** Its customer's parent, not itself; and if it is an active card, the key StEvE knows it by. */
  ghost predicate Settled(publicIds: map<string, string>, r: Row, steve: Steve) {
    && (LinkedCard(r) && Wanted(publicIds, r) != r.idTag ==> r.parent == Some(Wanted(publicIds, r)))
    && r.parent != Some(r.idTag)
    && (r.active && !IsGroupTag(r.idTag) ==> r.idTag in steve && steve[r.idTag].pk == r.pk)
  }

  /** A run that logs no failure ends converged, wherever it started. */
  lemma CleanRunConverges(f: Faults, publicIds: map<string, string>, order: Order, w: World)
    requires Lists(order) && Run(f, publicIds, order, w).failures == w.failures
    ensures var w' := Run(f, publicIds, order, w); Converged(publicIds, w'.rows, w'.steve)
  {
    hide IsGroupTag, Desired, Reparented, Repaired, RescueAll, FirstParent, SecondParent, NeedsParent;
    var w1 := Reparented(f, publicIds, order, w);
    var w2 := Repaired(f, order, w1);
    var w3 := Run(f, publicIds, order, w);
    ReparentedRows(f, publicIds, order, w);
    RepairedRows(f, order, w1);
    var ids := order(ActiveRows(w2.rows));
    RescueAllRows(f, w2, ids);
    forall id | id in w.rows
      ensures Settled(publicIds, w3.rows[id], w3.steve)
    {
      assert w2.rows[id].active ==> id in ids;
      ParentsSettle(f, publicIds, w.rows[id], w1.rows[id], w2.rows[id], w3.rows[id], id);
    }
  }

  lemma ParentsSettle(f: Faults, publicIds: map<string, string>, r: Row, r1: Row, r2: Row, r3: Row, id: nat)
    requires r1 == r.(parent := FirstParent(f, publicIds, r, id)) && r2 == r1.(parent := SecondParent(f, r1, id))
    requires r3.(pk := r2.pk) == r2
    requires NeedsParent(publicIds, r) ==> !f.db(Reparent, id)
    requires r1.parent == Some(r1.idTag) ==> !f.db(Repair, id)
    ensures LinkedCard(r3) && Wanted(publicIds, r3) != r3.idTag ==> r3.parent == Some(Wanted(publicIds, r3))
    ensures r3.parent != Some(r3.idTag)
  {
    hide IsGroupTag, Desired;
  }

  // --- When a run logs no failure ---------------------------------------------------------------------------------

  /** No database call, lookup or creation fails, and a new tag's key is one that neither StEvE nor a row has. */
  ghost predicate Calm(f: Faults, rows: Rows) {
    && (forall pass, id :: !f.db(pass, id))
    && (forall id :: !f.lookup(id) && !f.create(id))
    && (forall s: Steve, t :: t in s ==> s[t].pk != f.newPk(s))
    && (forall s: Steve, id :: id in rows ==> rows[id].pk != f.newPk(s))
  }

  ghost predicate SteveUnique(s: Steve) {
    forall t, u :: t in s && u in s && t != u ==> s[t].pk != s[u].pk
  }

  /** A card whose key the pass has settled. */
  ghost predicate Moved(rows: Rows, scanned: seq<nat>, j: nat)
    requires j in rows
  {
    j in scanned && !IsGroupTag(rows[j].idTag)
  }

  /**
   The card is not on its live key, and another row is in the way of it: a card scanned before with the same id
   tag, which has the key by now, or a row that still holds the key StEvE has for the tag.
  */
  ghost predicate Blocked(rows: Rows, steve: Steve, scanned: seq<nat>, id: nat)
    requires id in rows
  {
    var tag := rows[id].idTag;
    && !IsGroupTag(tag) && (tag in steve ==> steve[tag].pk != rows[id].pk)
    && ((exists j :: j in rows && j != id && Moved(rows, scanned, j) && rows[j].idTag == tag)
        || (tag in steve && exists j :: j in rows && j != id && !Moved(rows, scanned, j) && rows[j].pk == steve[tag].pk))
  }

  /** The rescue pass midway, no failure so far: the scanned cards are on their live keys, the other rows as they were. */
  ghost predicate Midway(w: World, v: World, scanned: seq<nat>) {
    && v.rows.Keys == w.rows.Keys
    && RowsMidway(w, v, scanned)
    && TagsMidway(w, v, scanned)
  }

  ghost predicate RowsMidway(w: World, v: World, scanned: seq<nat>)
    requires v.rows.Keys == w.rows.Keys
  {
    && (forall j :: j in w.rows ==> v.rows[j].idTag == w.rows[j].idTag)
    && (forall j :: j in w.rows && !Moved(w.rows, scanned, j) ==> v.rows[j] == w.rows[j])
    && (forall j :: j in w.rows && Moved(w.rows, scanned, j) ==>
          w.rows[j].idTag in v.steve && v.steve[w.rows[j].idTag].pk == v.rows[j].pk)
  }

  /** StEvE then: the old tags have their keys; the new ones have keys no row held. */
  ghost predicate TagsMidway(w: World, v: World, scanned: seq<nat>) {
    && (forall t :: t in w.steve ==> t in v.steve && v.steve[t].pk == w.steve[t].pk)
    && (forall t :: t in v.steve && t !in w.steve ==> MadeFor(w.rows, scanned, t) && NoRowHolds(w.rows, v.steve[t].pk))
    && SteveUnique(v.steve)
  }

  /** The tag is one the pass made for a card. */
  ghost predicate MadeFor(rows: Rows, scanned: seq<nat>, t: string) {
    exists j :: j in rows && Moved(rows, scanned, j) && rows[j].idTag == t
  }

  ghost predicate NoRowHolds(rows: Rows, pk: nat) {
    forall j :: j in rows ==> rows[j].pk != pk
  }

  /** Whether another row has the live key when a card's turn comes. */
  lemma TakenIffBlocked(w: World, v: World, scanned: seq<nat>, id: nat)
    requires Midway(w, v, scanned) && id in w.rows && id !in scanned
    requires !IsGroupTag(w.rows[id].idTag) && w.rows[id].idTag in v.steve
    ensures v.rows.Keys == w.rows.Keys && v.rows[id] == w.rows[id]
    ensures v.steve[w.rows[id].idTag].pk == w.rows[id].pk ==> !Blocked(w.rows, w.steve, scanned, id)
    ensures v.steve[w.rows[id].idTag].pk != w.rows[id].pk ==>
              (KeyTaken(v.rows, id, v.steve[w.rows[id].idTag].pk) <==> Blocked(w.rows, w.steve, scanned, id))
  {
    hide IsGroupTag;
    var tag := w.rows[id].idTag;
    assert !Moved(w.rows, scanned, id);
    forall j | j in w.rows && j != id && Moved(w.rows, scanned, j)
      ensures v.rows[j].pk == v.steve[tag].pk <==> w.rows[j].idTag == tag
    {
    }
    hide Moved;
    if tag !in w.steve {
      assert MadeFor(w.rows, scanned, tag) && NoRowHolds(w.rows, v.steve[tag].pk);
    }
  }

  lemma FreshKey(f: Faults, w: World, v: World, scanned: seq<nat>, id: nat)
    requires Calm(f, w.rows) && Midway(w, v, scanned) && id in w.rows
    ensures !KeyTaken(v.rows, id, f.newPk(v.steve))
  {
    hide IsGroupTag;
    forall j | j in v.rows && j != id
      ensures v.rows[j].pk != f.newPk(v.steve)
    {
      if Moved(w.rows, scanned, j) {
        assert v.steve[w.rows[j].idTag].pk == v.rows[j].pk;
      }
    }
  }

  lemma MovedMore(rows: Rows, scanned: seq<nat>, id: nat)
    ensures forall j :: j in rows ==>
              (Moved(rows, scanned + [id], j) <==> Moved(rows, scanned, j) || (j == id && !IsGroupTag(rows[j].idTag)))
  {
    hide IsGroupTag;
  }

  /** A turn that puts the card on its live key, found or newly made, is one more step of the pass. */
  lemma SettledTurn(w: World, v: World, scanned: seq<nat>, id: nat, v': World)
    requires Midway(w, v, scanned) && id in w.rows && !IsGroupTag(w.rows[id].idTag)
    requires id in v'.rows && v'.rows == v.rows[id := v.rows[id].(pk := v'.rows[id].pk)]
    requires w.rows[id].idTag in v'.steve && v'.steve[w.rows[id].idTag].pk == v'.rows[id].pk && SteveUnique(v'.steve)
    requires (forall t :: t in v.steve ==> t in v'.steve && v'.steve[t].pk == v.steve[t].pk)
    requires (forall t :: t in v'.steve && t !in v.steve ==> t == w.rows[id].idTag && NoRowHolds(w.rows, v'.steve[t].pk))
    ensures Midway(w, v', scanned + [id])
  {
    RowsSettled(w, v, scanned, id, v');
    TagsSettled(w, v, scanned, id, v');
    hide RowsMidway, TagsMidway;
  }

  lemma RowsSettled(w: World, v: World, scanned: seq<nat>, id: nat, v': World)
    requires v.rows.Keys == w.rows.Keys && RowsMidway(w, v, scanned) && id in w.rows && !IsGroupTag(w.rows[id].idTag)
    requires id in v'.rows && v'.rows == v.rows[id := v.rows[id].(pk := v'.rows[id].pk)]
    requires w.rows[id].idTag in v'.steve && v'.steve[w.rows[id].idTag].pk == v'.rows[id].pk
    requires (forall t :: t in v.steve ==> t in v'.steve && v'.steve[t].pk == v.steve[t].pk)
    ensures v'.rows.Keys == w.rows.Keys && RowsMidway(w, v', scanned + [id])
  {
    MovedMore(w.rows, scanned, id);
    hide IsGroupTag, Moved;
  }

  lemma TagsSettled(w: World, v: World, scanned: seq<nat>, id: nat, v': World)
    requires TagsMidway(w, v, scanned) && id in w.rows && !IsGroupTag(w.rows[id].idTag) && SteveUnique(v'.steve)
    requires (forall t :: t in v.steve ==> t in v'.steve && v'.steve[t].pk == v.steve[t].pk)
    requires (forall t :: t in v'.steve && t !in v.steve ==> t == w.rows[id].idTag && NoRowHolds(w.rows, v'.steve[t].pk))
    ensures TagsMidway(w, v', scanned + [id])
  {
    MadeForMore(w.rows, scanned, id);
    assert MadeFor(w.rows, scanned + [id], w.rows[id].idTag) by {
      assert Moved(w.rows, scanned + [id], id);
    }
    hide IsGroupTag, Moved, SteveUnique, NoRowHolds, MadeFor;
  }

  lemma MadeForMore(rows: Rows, scanned: seq<nat>, id: nat)
    ensures forall t :: MadeFor(rows, scanned, t) ==> MadeFor(rows, scanned + [id], t)
  {
    hide IsGroupTag;
    forall t | MadeFor(rows, scanned, t)
      ensures MadeFor(rows, scanned + [id], t)
    {
      var j :| j in rows && Moved(rows, scanned, j) && rows[j].idTag == t;
      assert Moved(rows, scanned + [id], j);
    }
  }

  lemma SkippedTurn(w: World, v: World, scanned: seq<nat>, id: nat)
    requires Midway(w, v, scanned) && id in w.rows && IsGroupTag(w.rows[id].idTag)
    ensures Midway(w, v, scanned + [id])
  {
    MovedMore(w.rows, scanned, id);
    MadeForMore(w.rows, scanned, id);
    hide IsGroupTag, Moved, SteveUnique, NoRowHolds, MadeFor;
  }

  /** One turn: it fails iff the card is blocked. */
  lemma RescueTurn(f: Faults, w: World, v: World, scanned: seq<nat>, id: nat)
    requires Calm(f, w.rows) && Midway(w, v, scanned) && id in w.rows && id !in scanned
    ensures RescueRow(f, v, id).failures == v.failures <==> !Blocked(w.rows, w.steve, scanned, id)
    ensures RescueRow(f, v, id).failures == v.failures ==> Midway(w, RescueRow(f, v, id), scanned + [id])
  {
    if IsGroupTag(w.rows[id].idTag) {
      SkippedTurn(w, v, scanned, id);
    } else if w.rows[id].idTag in v.steve {
      KnownTurn(f, w, v, scanned, id);
    } else {
      UnknownTurn(f, w, v, scanned, id);
    }
  }

  lemma KnownTurn(f: Faults, w: World, v: World, scanned: seq<nat>, id: nat)
    requires Calm(f, w.rows) && Midway(w, v, scanned) && id in w.rows && id !in scanned
    requires !IsGroupTag(w.rows[id].idTag) && w.rows[id].idTag in v.steve
    ensures RescueRow(f, v, id).failures == v.failures <==> !Blocked(w.rows, w.steve, scanned, id)
    ensures RescueRow(f, v, id).failures == v.failures ==> Midway(w, RescueRow(f, v, id), scanned + [id])
  {
    hide Blocked, KeyTaken, IsGroupTag, Midway, Moved;
    KeptTags(w, v, scanned);
    TakenIffBlocked(w, v, scanned, id);
    var v' := RescueRow(f, v, id);
    if v'.failures == v.failures {
      assert v'.rows == v.rows[id := v.rows[id].(pk := v'.rows[id].pk)];
      hide RescueRow, Calm;
      SettledTurn(w, v, scanned, id, v');
    }
  }

  lemma UnknownTurn(f: Faults, w: World, v: World, scanned: seq<nat>, id: nat)
    requires Calm(f, w.rows) && Midway(w, v, scanned) && id in w.rows && id !in scanned
    requires !IsGroupTag(w.rows[id].idTag) && w.rows[id].idTag !in v.steve
    ensures RescueRow(f, v, id).failures == v.failures && !Blocked(w.rows, w.steve, scanned, id)
    ensures Midway(w, RescueRow(f, v, id), scanned + [id])
  {
    hide Blocked, KeyTaken, IsGroupTag, Midway, Moved;
    KeptTags(w, v, scanned);
    FreshKey(f, w, v, scanned, id);
    NewTag(f, w, v, scanned, id);
    var v' := RescueRow(f, v, id);
    assert v'.rows == v.rows[id := v.rows[id].(pk := v'.rows[id].pk)];
    SettledTurn(w, v, scanned, id, v');
  }

  lemma KeptTags(w: World, v: World, scanned: seq<nat>)
    requires Midway(w, v, scanned)
    ensures SteveUnique(v.steve) && v.rows.Keys == w.rows.Keys
  {
  }

  /** A card StEvE does not know is not blocked, and the key made for it keeps StEvE's keys distinct. */
  lemma NewTag(f: Faults, w: World, v: World, scanned: seq<nat>, id: nat)
    requires Calm(f, w.rows) && Midway(w, v, scanned) && id in w.rows && id !in scanned && w.rows[id].idTag !in v.steve
    ensures !Blocked(w.rows, w.steve, scanned, id) && v.rows.Keys == w.rows.Keys
    ensures !Moved(w.rows, scanned, id) && v.rows[id] == w.rows[id]
    ensures SteveUnique(v.steve[w.rows[id].idTag := Tag(f.newPk(v.steve), v.rows[id].parent, 1)])
    ensures NoRowHolds(w.rows, f.newPk(v.steve))
  {
    hide IsGroupTag;
  }

  /** The rescue pass logs no failure iff no card is blocked at its turn. */
  lemma {:induction false} RescueCleanIff(f: Faults, w: World, ids: seq<nat>)
    requires Calm(f, w.rows) && SteveUnique(w.steve)
    requires (forall id :: id in ids ==> id in w.rows) && Distinct(ids)
    ensures RescueAll(f, w, ids).failures >= w.failures
    ensures RescueAll(f, w, ids).failures == w.failures <==>
              forall i :: 0 <= i < |ids| ==> ids[i] in w.rows && !Blocked(w.rows, w.steve, ids[..i], ids[i])
    ensures RescueAll(f, w, ids).failures == w.failures ==> Midway(w, RescueAll(f, w, ids), ids)
  {
    hide RescueAll, RescueRow, Calm, IsGroupTag, Blocked;
    if ids == [] {
      RescueNone(f, w);
    } else {
      var n := |ids| - 1;
      assert ids == ids[..n + 1] == ids[..n] + [ids[n]] && ids[n] !in ids[..n];
      RescueStep(f, w, ids, n);
      RescueCleanIff(f, w, ids[..n]);
      forall i | 0 <= i < n
        ensures ids[..n][..i] == ids[..i]
      {
      }
      var v := RescueAll(f, w, ids[..n]);
      hide Midway;
      if v.failures == w.failures {
        RescueTurn(f, w, v, ids[..n], ids[n]);
      }
      RescueRowIs(f, v, ids[n]);
    }
  }

  /** The parent-editing passes leave StEvE's tags and their keys. */
  lemma {:induction false} EditAllKeepsKeys(f: Faults, pass: Pass, choose: Choice, w: World, ids: seq<nat>)
    requires (forall id :: id in ids ==> id in w.rows) && Distinct(ids)
    ensures var w' := EditAll(f, pass, choose, w, ids);
            w'.steve.Keys == w.steve.Keys && forall t :: t in w.steve ==> w'.steve[t].pk == w.steve[t].pk
  {
    hide EditAll, EditRow, EditedRow;
    if ids == [] {
      EditNone(f, pass, choose, w);
    } else {
      var n := |ids| - 1;
      assert ids == ids[..n + 1] && ids[n] in ids;
      EditStep(f, pass, choose, w, ids, n);
      EditAllKeepsKeys(f, pass, choose, w, ids[..n]);
      var v := EditAll(f, pass, choose, w, ids[..n]);
      EditRowIs(f, pass, choose, v, ids[n]);
      EditKeepsPk(f, pass, choose, v.rows[ids[n]], ids[n]);
    }
  }

  /** Nothing a blocked card depends on is touched by the first two passes. */
  lemma SameBlocks(rows: Rows, steve: Steve, rows': Rows, steve': Steve, scanned: seq<nat>, id: nat)
    requires id in rows && rows'.Keys == rows.Keys && steve'.Keys == steve.Keys
    requires forall j :: j in rows ==> rows'[j].idTag == rows[j].idTag && rows'[j].pk == rows[j].pk
    requires forall t :: t in steve ==> steve'[t].pk == steve[t].pk
    ensures Blocked(rows', steve', scanned, id) <==> Blocked(rows, steve, scanned, id)
  {
    hide IsGroupTag;
    forall j | j in rows
      ensures Moved(rows', scanned, j) <==> Moved(rows, scanned, j)
    {
    }
  }

  /**
   With no call failing, a run logs no failure, and so ends converged, iff no active card finds another row in the
   way of its live key at its turn. Which pushes fail does not matter: none of them is logged.
  */
  lemma RunCleanIff(f: Faults, publicIds: map<string, string>, order: Order, w: World)
    requires Lists(order) && Calm(f, w.rows) && SteveUnique(w.steve)
    ensures var w', ids := Run(f, publicIds, order, w), order(ActiveRows(w.rows));
            && (w'.failures == w.failures <==>
                  forall i :: 0 <= i < |ids| ==> ids[i] in w.rows && !Blocked(w.rows, w.steve, ids[..i], ids[i]))
            && (w'.failures == w.failures ==> Converged(publicIds, w'.rows, w'.steve))
  {
    hide IsGroupTag, Desired, RescueAll, Reparented, Repaired, Converged, Blocked, Calm, SteveUnique;
    var w2 := Repaired(f, order, Reparented(f, publicIds, order, w));
    FirstTwoPasses(f, publicIds, order, w);
    var ids := order(ActiveRows(w.rows));
    RescueCleanIff(f, w2, ids);
    forall i | 0 <= i < |ids|
      ensures ids[i] in w.rows && (Blocked(w2.rows, w2.steve, ids[..i], ids[i]) <==> Blocked(w.rows, w.steve, ids[..i], ids[i]))
    {
      assert ids[i] in ids;
      SameBlocks(w.rows, w.steve, w2.rows, w2.steve, ids[..i], ids[i]);
    }
    if Run(f, publicIds, order, w).failures == w.failures {
      CleanRunConverges(f, publicIds, order, w);
    }
  }

  /** Without failing updates the first two passes log no failure and move no key. */
  lemma FirstTwoPasses(f: Faults, publicIds: map<string, string>, order: Order, w: World)
    requires Lists(order) && Calm(f, w.rows) && SteveUnique(w.steve)
    ensures var w2 := Repaired(f, order, Reparented(f, publicIds, order, w));
            && w2.failures == w.failures
            && (forall j :: j in w.rows ==> w2.rows[j].(parent := w.rows[j].parent) == w.rows[j])
            && w2.steve.Keys == w.steve.Keys && (forall t :: t in w.steve ==> w2.steve[t].pk == w.steve[t].pk)
            && ActiveRows(w2.rows) == ActiveRows(w.rows)
            && Calm(f, w2.rows) && SteveUnique(w2.steve)
  {
    hide IsGroupTag, Desired, EditAll, FirstParent, SecondParent, NeedsParent, Reparented, Repaired, Lists;
    var w1 := Reparented(f, publicIds, order, w);
    ReparentedRows(f, publicIds, order, w);
    RepairedRows(f, order, w1);
    PassesKeepKeys(f, publicIds, order, w, w1);
  }

  lemma PassesKeepKeys(f: Faults, publicIds: map<string, string>, order: Order, w: World, v: World)
    requires Lists(order)
    ensures var w1 := Reparented(f, publicIds, order, w);
            w1.steve.Keys == w.steve.Keys && forall t :: t in w.steve ==> w1.steve[t].pk == w.steve[t].pk
    ensures var v' := Repaired(f, order, v);
            v'.steve.Keys == v.steve.Keys && forall t :: t in v.steve ==> v'.steve[t].pk == v.steve[t].pk
  {
    hide EditAll, ReparentChoice, RepairChoice;
    EditAllKeepsKeys(f, Reparent, ReparentChoice(publicIds), w, order(LinkedRows(w.rows)));
    EditAllKeepsKeys(f, Repair, RepairChoice(), v, order(SelfParented(v.rows)));
  }

  /** Every active card's tag is in StEvE, and its live key is its own or held by another row. */
  ghost predicate Stuck(rows: Rows, steve: Steve) {
    forall id :: id in rows && rows[id].active && !IsGroupTag(rows[id].idTag) ==>
      && rows[id].idTag in steve
      && (steve[rows[id].idTag].pk == rows[id].pk || KeyTaken(rows, id, steve[rows[id].idTag].pk))
  }

  /** Then the rescue pass changes nothing, whatever fails: no key is ever freed. */
  lemma {:induction false} StuckRescue(f: Faults, w: World, ids: seq<nat>)
    requires Stuck(w.rows, w.steve) && forall id :: id in ids ==> id in w.rows && w.rows[id].active
    ensures var w' := RescueAll(f, w, ids); w'.rows == w.rows && w'.steve == w.steve
  {
    hide IsGroupTag, RescueAll, RescueRow, KeyTaken;
    if ids == [] {
      RescueNone(f, w);
    } else {
      var n := |ids| - 1;
      assert ids == ids[..n + 1] && ids[n] in ids;
      RescueStep(f, w, ids, n);
      StuckRescue(f, w, ids[..n]);
      StuckTurn(f, RescueAll(f, w, ids[..n]), ids[n]);
    }
  }

  lemma StuckTurn(f: Faults, w: World, id: nat)
    requires Stuck(w.rows, w.steve) && id in w.rows && w.rows[id].active
    ensures var w' := RescueRow(f, w, id); w'.rows == w.rows && w'.steve == w.steve
  {
    hide IsGroupTag, KeyTaken;
  }

  /**
   Two active cards whose keys StEvE has swapped: no call fails, yet the run logs failures, changes no row and no
   tag, and so does every later run. The migration does not converge on them.
  */
  lemma SwappedKeysNeverConverge(f: Faults, publicIds: map<string, string>, order: Order, w: World)
    requires Lists(order) && Calm(f, w.rows)
    requires w.rows == map[1 := Row("A", 10, None, None, true), 2 := Row("B", 20, None, None, true)]
    requires w.steve == map["A" := Tag(20, None, 1), "B" := Tag(10, None, 1)]
    ensures var w' := Run(f, publicIds, order, w);
            && w'.failures > w.failures && w'.rows == w.rows && w'.steve == w.steve
            && !Converged(publicIds, w'.rows, w'.steve)
  {
    var ids := order(ActiveRows(w.rows));
    CardsAandB();
    BothStuck(w);
    assert !Settled(publicIds, w.rows[1], w.steve);
    NothingToReparent(f, publicIds, order, w);
    hide IsGroupTag, Desired, EditAll, RescueAll, ReparentChoice, Calm, Stuck, Reparented, Repaired, Settled, Blocked, Lists;
    StuckRescue(f, w, ids);
    RunCleanIff(f, publicIds, order, w);
    RescueAllRows(f, w, ids);
  }

  lemma BothStuck(w: World)
    requires !IsGroupTag("A") && !IsGroupTag("B")
    requires w.rows == map[1 := Row("A", 10, None, None, true), 2 := Row("B", 20, None, None, true)]
    requires w.steve == map["A" := Tag(20, None, 1), "B" := Tag(10, None, 1)]
    ensures Stuck(w.rows, w.steve) && SteveUnique(w.steve)
  {
    hide IsGroupTag;
    assert w.rows[2].pk == 20 && w.rows[1].pk == 10;
  }

  /** Without linked rows or self-parents the first two passes do nothing. */
  lemma NothingToReparent(f: Faults, publicIds: map<string, string>, order: Order, w: World)
    requires Lists(order) && forall id :: id in w.rows ==> w.rows[id].lago == None && w.rows[id].parent == None
    ensures Repaired(f, order, Reparented(f, publicIds, order, w)) == w
  {
    hide IsGroupTag, Desired, EditAll, ReparentChoice;
    forall id | id in w.rows ensures ReparentChoice(publicIds)(w.rows[id]) == None {
      Choices(publicIds, w.rows[id]);
    }
    IdleEdit(f, Reparent, ReparentChoice(publicIds), w, order(LinkedRows(w.rows)));
    RepairedRows(f, order, w);
  }

  /** The unique constraint on the key: no run gives two rows one key. */
  lemma {:induction false} RescueKeepsUnique(f: Faults, w: World, ids: seq<nat>)
    requires UniqueKeys(w.rows) && forall id :: id in ids ==> id in w.rows
    ensures UniqueKeys(RescueAll(f, w, ids).rows)
  {
    hide RescueAll, RescueRow, UniqueKeys;
    if ids == [] {
      RescueNone(f, w);
    } else {
      var n := |ids| - 1;
      assert ids == ids[..n + 1] && ids[n] in ids;
      RescueStep(f, w, ids, n);
      RescueKeepsUnique(f, w, ids[..n]);
      TurnKeepsUnique(f, RescueAll(f, w, ids[..n]), ids[n]);
    }
  }

  lemma TurnKeepsUnique(f: Faults, w: World, id: nat)
    requires UniqueKeys(w.rows) && id in w.rows
    ensures UniqueKeys(RescueRow(f, w, id).rows)
  {
    hide IsGroupTag;
  }

  /**
   Two active rows of one card, which linking a drifted card again makes: whatever fails and in whatever order,
   the run logs a failure and does not converge, for the two rows would need one key.
  */
  lemma TwoRowsOfACardNeverConverge(f: Faults, publicIds: map<string, string>, order: Order, w: World, i: nat, j: nat)
    requires Lists(order) && UniqueKeys(w.rows) && i in w.rows && j in w.rows && i != j
    requires w.rows[i].active && w.rows[j].active && w.rows[i].idTag == w.rows[j].idTag && !IsGroupTag(w.rows[i].idTag)
    ensures var w' := Run(f, publicIds, order, w); w'.failures != w.failures && !Converged(publicIds, w'.rows, w'.steve)
  {
    hide IsGroupTag, Desired, Reparented, Repaired, RescueAll, FirstParent, SecondParent;
    var w1 := Reparented(f, publicIds, order, w);
    var w2 := Repaired(f, order, w1);
    var w' := Run(f, publicIds, order, w);
    ReparentedRows(f, publicIds, order, w);
    RepairedRows(f, order, w1);
    var ids := order(ActiveRows(w2.rows));
    RescueKeepsUnique(f, w2, ids);
    RescueAllRows(f, w2, ids);
    assert w'.rows[i].pk != w'.rows[j].pk;
    assert !(Settled(publicIds, w'.rows[i], w'.steve) && Settled(publicIds, w'.rows[j], w'.steve));
    if w'.failures == w.failures {
      CleanRunConverges(f, publicIds, order, w);
    }
  }

  /** The smallest case: the older row keeps the drifted key, and nothing changes it. */
  lemma LinkedAgainStaysDrifted(f: Faults, publicIds: map<string, string>, order: Order, w: World)
    requires Lists(order)
    requires w.rows == map[1 := Row("A", 10, None, None, true), 2 := Row("A", 20, None, None, true)]
    requires w.steve == map["A" := Tag(20, None, 1)]
    ensures var w' := Run(f, publicIds, order, w); w'.failures != w.failures && w'.rows == w.rows && w'.steve == w.steve
  {
    CardsAandB();
    OlderRowStuck(w);
    NothingToReparent(f, publicIds, order, w);
    hide IsGroupTag, Desired, EditAll, RescueAll, ReparentChoice, Stuck, Reparented, Repaired, Lists, UniqueKeys;
    StuckRescue(f, w, order(ActiveRows(w.rows)));
    TwoRowsOfACardNeverConverge(f, publicIds, order, w, 1, 2);
  }

  lemma OlderRowStuck(w: World)
    requires !IsGroupTag("A")
    requires w.rows == map[1 := Row("A", 10, None, None, true), 2 := Row("A", 20, None, None, true)]
    requires w.steve == map["A" := Tag(20, None, 1)]
    ensures Stuck(w.rows, w.steve) && UniqueKeys(w.rows)
  {
    hide IsGroupTag;
    assert w.rows[2].pk == 20;
  }

  lemma CardsAandB()
    ensures !IsGroupTag("A") && !IsGroupTag("B")
  {
    assert "A"[0] == 'A' && "B"[0] == 'B';
    assert "META-"[0] == 'M' && "OCPP-"[0] == 'O';
  }

  /** No card is itself the parent its customer should have. */
  ghost predicate NoCardIsItsOwnParent(publicIds: map<string, string>, rows: Rows) {
    forall id :: id in rows && LinkedCard(rows[id]) ==> Wanted(publicIds, rows[id]) != rows[id].idTag
  }

  /** It suffices that every computed parent is a group tag, which cards are not. */
  lemma GroupParentsSuffice(publicIds: map<string, string>, rows: Rows)
    requires forall id :: id in rows && LinkedCard(rows[id]) ==> IsGroupTag(Wanted(publicIds, rows[id]))
    ensures NoCardIsItsOwnParent(publicIds, rows)
  {
    hide IsGroupTag, Desired;
    forall id | id in rows && LinkedCard(rows[id])
      ensures Wanted(publicIds, rows[id]) != rows[id].idTag
    {
      assert IsGroupTag(Wanted(publicIds, rows[id])) && !IsGroupTag(rows[id].idTag);
    }
  }

  /** From a converged state a second run has nothing to do iff no card is its own wanted parent; then nothing changes. */
  lemma SecondRunIdleIff(f: Faults, publicIds: map<string, string>, order: Order, w: World)
    requires Lists(order) && Converged(publicIds, w.rows, w.steve)
    requires forall id :: !f.db(Reparent, id)
    ensures Run(f, publicIds, order, w).done == w.done <==> NoCardIsItsOwnParent(publicIds, w.rows)
  {
    hide IsGroupTag, Desired, Reparented, Repaired, RescueAll;
    var w1 := Reparented(f, publicIds, order, w);
    var w2 := Repaired(f, order, w1);
    ReparentedRows(f, publicIds, order, w);
    RepairedRows(f, order, w1);
    RescueAllRows(f, w2, order(ActiveRows(w2.rows)));
    if NoCardIsItsOwnParent(publicIds, w.rows) {
      SecondRunChangesNothing(f, publicIds, order, w);
    } else {
      var id :| id in w.rows && LinkedCard(w.rows[id]) && Wanted(publicIds, w.rows[id]) == w.rows[id].idTag;
      assert Settled(publicIds, w.rows[id], w.steve);
      assert NeedsParent(publicIds, w.rows[id]);
    }
  }

  /** Whatever fails in it, a second run on a converged state leaves both tables as they are. */
  lemma SecondRunChangesNothing(f: Faults, publicIds: map<string, string>, order: Order, w: World)
    requires Lists(order) && Converged(publicIds, w.rows, w.steve) && NoCardIsItsOwnParent(publicIds, w.rows)
    ensures var w' := Run(f, publicIds, order, w);
            w'.rows == w.rows && w'.steve == w.steve && w'.done == w.done && w'.unpushed == w.unpushed
  {
    hide IsGroupTag, Desired, EditAll, RescueAll, ReparentChoice;
    forall id | id in w.rows ensures Settled(publicIds, w.rows[id], w.steve) && !NeedsParent(publicIds, w.rows[id]) {
    }
    forall id | id in w.rows ensures ReparentChoice(publicIds)(w.rows[id]) == None {
      Choices(publicIds, w.rows[id]);
    }
    IdleEdit(f, Reparent, ReparentChoice(publicIds), w, order(LinkedRows(w.rows)));
    RepairedRows(f, order, w);
    assert Repaired(f, order, w) == w;
    IdleRescue(f, w, order(ActiveRows(w.rows)));
  }

  lemma {:induction false} IdleEdit(f: Faults, pass: Pass, choose: Choice, w: World, ids: seq<nat>)
    requires forall id :: id in ids ==> id in w.rows && choose(w.rows[id]) == None
    ensures EditAll(f, pass, choose, w, ids) == w
  {
    if ids != [] {
      IdleEdit(f, pass, choose, w, ids[..|ids| - 1]);
    }
  }

  lemma {:induction false} IdleRescue(f: Faults, w: World, ids: seq<nat>)
    requires forall id :: id in ids ==> id in w.rows
    requires forall id :: id in ids ==>
               IsGroupTag(w.rows[id].idTag) || (w.rows[id].idTag in w.steve && w.steve[w.rows[id].idTag].pk == w.rows[id].pk)
    ensures var w' := RescueAll(f, w, ids); w'.rows == w.rows && w'.steve == w.steve && w'.done == w.done && w'.unpushed == w.unpushed
  {
    hide IsGroupTag, RescueRow, RescueAll;
    if ids == [] {
      RescueNone(f, w);
    } else {
      var n := |ids| - 1;
      assert ids == ids[..n + 1];
      RescueStep(f, w, ids, n);
      IdleRescue(f, w, ids[..n]);
      RescueRowIs(f, RescueAll(f, w, ids[..n]), ids[n]);
    }
  }

  /**
   A reparented card's edge reaches StEvE iff its one push goes through. A push that fails goes unnoticed:
   the row already has its parent, so neither this run nor a later one pushes it again.
  */
  lemma EdgeReachesSteveIff(f: Faults, publicIds: map<string, string>, order: Order, w: World, id: nat, t: string)
    requires Lists(order) && UniqueKeys(w.rows) && id in w.rows && NeedsParent(publicIds, w.rows[id]) && !f.db(Reparent, id)
    requires t in w.steve && w.steve[t].pk == w.rows[id].pk
    requires w.steve[t].parent != Some(Wanted(publicIds, w.rows[id])) && Wanted(publicIds, w.rows[id]) != w.rows[id].idTag
    ensures var w' := Run(f, publicIds, order, w);
            && w'.rows[id].parent == Some(Wanted(publicIds, w.rows[id]))
            && t in w'.steve
            && (w'.steve[t].parent == w'.rows[id].parent <==> !f.push(Reparent, id))
            && (!f.push(Reparent, id) ==> w'.steve[t].pk == w.rows[id].pk && w'.steve[t].limit == if w.rows[id].active then -1 else 0)
            && (f.push(Reparent, id) ==> w'.steve[t] == w.steve[t])
  {
    hide IsGroupTag, Desired, EditAll, RescueAll, ReparentChoice;
    var choose, ids1 := ReparentChoice(publicIds), order(LinkedRows(w.rows));
    var w1 := Reparented(f, publicIds, order, w);
    var w2 := Repaired(f, order, w1);
    var ids2 := order(SelfParented(w1.rows));
    ReparentedRows(f, publicIds, order, w);
    Choices(publicIds, w.rows[id]);
    EditAllTags(f, Reparent, choose, w, ids1, t);
    assert Edited(f, Reparent, choose, w.rows, ids1, id);
    EditAllTags(f, Repair, RepairChoice(), w1, ids2, t);
    forall j | Edited(f, Repair, RepairChoice(), w1.rows, ids2, j)
      ensures w1.rows[j].pk != w1.steve[t].pk
    {
      assert w1.rows[j].pk == w.rows[j].pk;
    }
    RescueAllRows(f, w2, order(ActiveRows(w2.rows)));
    RunParents(f, publicIds, order, w, id);
  }
}
