/**
 Merging customer accounts that were created more than once: users without an email who share a name.
 The database refuses some of the statements: two users may not carry one Lago id (migration 0030), and
 two mappings of one Lago customer may not have different owners (the trigger of migration 0026).
*/
module MergeDuplicates {
  import opened UserMappings
  import opened Wrappers

  datatype User = User(name: Option<string>, email: Option<string>, customer: bool, lago: Option<string>, created: int)

  /** The tables the script touches, each row by its key; a session or account row is its owner. */
  datatype Tables = Tables(
    users: map<string, User>,
    mappings: Mappings,
    audits: map<nat, Option<string>>,
    sessions: map<string, string>,
    accounts: map<string, string>)

  // --- The duplicate groups ------------------------------------------------------------------------

  datatype Group = Group(name: Option<string>, ids: seq<string>)

  /** The users one group of the query is made of. */
  function Emailless(users: map<string, User>, name: Option<string>): set<string> {
    set u | u in users && users[u].customer && users[u].email == None && users[u].name == name
  }

  function Elements(s: seq<string>): set<string> {
    set u | u in s
  }

  ghost predicate IsGroup(users: map<string, User>, g: Group) {
    && |g.ids| > 1
    && (forall u :: u in g.ids ==> u in users)
    && Elements(g.ids) == Emailless(users, g.name)
    && (forall i, j :: 0 <= i < j < |g.ids| ==> g.ids[i] != g.ids[j])
    && (forall i, j :: 0 <= i < j < |g.ids| ==> users[g.ids[i]].created <= users[g.ids[j]].created)
  }

  /** What the first query returns: every name shared by several such users, once, oldest user first. */
  ghost predicate AreGroups(users: map<string, User>, gs: seq<Group>) {
    && (forall i :: 0 <= i < |gs| ==> IsGroup(users, gs[i]))
    && (forall i, j :: 0 <= i < j < |gs| ==> gs[i].name != gs[j].name)
    && (forall u, v :: u in users && v in users && u != v && users[u].name == users[v].name
                       && u in Emailless(users, users[u].name) && v in Emailless(users, users[u].name)
                       ==> exists i :: 0 <= i < |gs| && gs[i].name == users[u].name)
  }

  // --- The plan --------------------------------------------------------------------------------------

  datatype Item = Item(externalId: Option<string>, keeper: string, losers: seq<string>)

  datatype LagoRow = LagoRow(externalId: string, name: Option<string>)

  /** `if (row.name)`: neither null nor empty. */
  predicate Truthy(s: Option<string>) {
    s.Some? && s.value != ""
  }

  /** The last live row with a name decides. */
  function LagoByName(rows: seq<LagoRow>, name: string): Option<string>
    requires name != ""
  {
    if rows == [] then None
    else if rows[|rows| - 1].name == Some(name) then Some(rows[|rows| - 1].externalId)
    else LagoByName(rows[..|rows| - 1], name)
  }

  /** The mapping the LIMIT 1 query found for a group, if any. */
  type Finder = seq<string> -> Option<nat>

  ghost predicate Finds(ms: Mappings, find: Finder) {
    forall ids ::
      && (find(ids).Some? ==> find(ids).value in ms && ms[find(ids).value].user.Some? && ms[find(ids).value].user.value in ids)
      && (find(ids) == None ==> forall m :: m in ms && ms[m].user.Some? ==> ms[m].user.value !in ids)
  }

  function PlanFor(ms: Mappings, find: Finder, rows: seq<LagoRow>, g: Group): Item
    requires g.ids != []
  {
    var m := find(g.ids);
    var mapped := if m.Some? && m.value in ms then ms[m.value].lago else None;
    var externalId := if mapped.Some? then mapped else if Truthy(g.name) then LagoByName(rows, g.name.value) else None;
    Item(externalId, g.ids[0], g.ids[1..])
  }

  /** Row `i` is the last live Lago row with the name. */
  ghost predicate LastNamed(rows: seq<LagoRow>, name: string, i: int) {
    0 <= i < |rows| && rows[i].name == Some(name) && forall j :: i < j < |rows| ==> rows[j].name != Some(name)
  }

  /** What a group's Lago id must be: the found mapping's, else that of the last live Lago row of its name, else none. */
  ghost predicate Resolves(ms: Mappings, find: Finder, rows: seq<LagoRow>, g: Group, externalId: Option<string>) {
    var m := find(g.ids);
    if m.Some? && m.value in ms && ms[m.value].lago.Some? then externalId == ms[m.value].lago
    else if g.name.Some? && g.name.value != "" && exists i :: LastNamed(rows, g.name.value, i)
    then forall i :: LastNamed(rows, g.name.value, i) ==> externalId == Some(rows[i].externalId)
    else externalId == None
  }

  lemma {:induction false} LagoByNameIs(rows: seq<LagoRow>, name: string)
    requires name != ""
    ensures forall i :: LastNamed(rows, name, i) ==> LagoByName(rows, name) == Some(rows[i].externalId)
    ensures LagoByName(rows, name).Some? ==> exists i :: LastNamed(rows, name, i)
  {
    if rows != [] {
      var n := |rows| - 1;
      LagoByNameIs(rows[..n], name);
      forall i | LastNamed(rows, name, i) && i < n
        ensures LastNamed(rows[..n], name, i)
      {
        assert rows[..n][i] == rows[i];
      }
      if rows[n].name == Some(name) {
        assert LastNamed(rows, name, n);
      } else if LagoByName(rows[..n], name).Some? {
        var i :| LastNamed(rows[..n], name, i);
        assert LastNamed(rows, name, i);
      }
    }
  }

  /** The planned id is that one. */
  lemma PlanResolves(ms: Mappings, find: Finder, rows: seq<LagoRow>, g: Group)
    requires g.ids != []
    ensures Resolves(ms, find, rows, g, PlanFor(ms, find, rows, g).externalId)
  {
    hide LagoByName, LastNamed;
    if g.name.Some? && g.name.value != "" {
      LagoByNameIs(rows, g.name.value);
    }
  }

  ghost predicate AllPlanned(gs: seq<Group>) {
    forall i :: 0 <= i < |gs| ==> gs[i].ids != []
  }

  function PlanOf(ms: Mappings, find: Finder, rows: seq<LagoRow>, gs: seq<Group>): seq<Item>
    requires AllPlanned(gs)
  {
    seq(|gs|, i requires 0 <= i < |gs| => PlanFor(ms, find, rows, gs[i]))
  }

  method BuildPlan(ms: Mappings, find: Finder, rows: seq<LagoRow>, gs: seq<Group>) returns (plan: seq<Item>)
    requires Finds(ms, find) && AllPlanned(gs)
    ensures plan == PlanOf(ms, find, rows, gs) && |plan| == |gs|
    ensures forall k :: 0 <= k < |gs| ==>
              plan[k].keeper == gs[k].ids[0] && plan[k].losers == gs[k].ids[1..] && Resolves(ms, find, rows, gs[k], plan[k].externalId)
  {
    var lagoByName: map<string, string> := map[];
    for i := 0 to |rows|
      invariant forall n :: n != "" ==> LagoByName(rows[..i], n) == if n in lagoByName then Some(lagoByName[n]) else None
    {
      assert rows[..i + 1][..i] == rows[..i];
      if Truthy(rows[i].name) {
        lagoByName := lagoByName[rows[i].name.value := rows[i].externalId];
      }
    }
    assert rows[..|rows|] == rows;
    plan := [];
    for i := 0 to |gs|
      invariant |plan| == i
      invariant forall k :: 0 <= k < i ==> plan[k] == PlanFor(ms, find, rows, gs[k])
    {
      var g := gs[i];
      var m := find(g.ids);
      var externalId: Option<string> := if m.Some? then ms[m.value].lago else None;
      if externalId == None && Truthy(g.name) && g.name.value in lagoByName {
        externalId := Some(lagoByName[g.name.value]);
      }
      plan := plan + [Item(externalId, g.ids[0], g.ids[1..])];
    }
    hide Resolves, PlanFor;
    forall k | 0 <= k < |gs|
      ensures Resolves(ms, find, rows, gs[k], plan[k].externalId)
    {
      PlanResolves(ms, find, rows, gs[k]);
    }
  }

  // --- Repointing the mappings, row by row ---------------------------------------------------------------

  /** The trigger on one row: no other mapping of its Lago customer has a different owner. */
  predicate TriggerAllows(ms: Mappings, id: nat, user: string)
    requires id in ms
  {
    ms[id].lago == None || forall j :: j in ms && j != id && ms[j].lago == ms[id].lago && ms[j].user.Some? ==> ms[j].user == Some(user)
  }

  predicate OwnedBy(m: Mapping, losers: seq<string>) {
    m.user.Some? && m.user.value in losers
  }

  function Repointed(ms: Mappings, losers: seq<string>, keeper: string): Mappings {
    map id | id in ms :: if OwnedBy(ms[id], losers) then ms[id].(user := Some(keeper)) else ms[id]
  }

  /** The UPDATE succeeds: the trigger would allow every row against the table as it was. */
  predicate RepointAllowed(ms: Mappings, losers: seq<string>, keeper: string) {
    forall id :: id in ms && OwnedBy(ms[id], losers) ==> TriggerAllows(ms, id, keeper)
  }

  /** In whatever order the rows are updated, the statement succeeds or fails alike. */
  method RepointMappings(ms: Mappings, losers: seq<string>, keeper: string) returns (r: Option<Mappings>)
    requires keeper !in losers
    ensures r == if RepointAllowed(ms, losers, keeper) then Some(Repointed(ms, losers, keeper)) else None
  {
    var todo := set id | id in ms && OwnedBy(ms[id], losers);
    var now := ms;
    while todo != {}
      invariant todo <= set id | id in ms && OwnedBy(ms[id], losers)
      invariant now.Keys == ms.Keys
      invariant forall id :: id in ms ==>
        now[id] == if OwnedBy(ms[id], losers) && id !in todo then ms[id].(user := Some(keeper)) else ms[id]
      invariant forall id :: id in ms && OwnedBy(ms[id], losers) && id !in todo ==> TriggerAllows(ms, id, keeper)
    {
      var id :| id in todo;
      if !TriggerAllows(now, id, keeper) {
        assert !TriggerAllows(ms, id, keeper);
        return None;
      }
      now := now[id := now[id].(user := Some(keeper))];
      todo := todo - {id};
    }
    assert now == Repointed(ms, losers, keeper);
    return Some(now);
  }

  /** The UPDATE goes through iff no Lago customer of a duplicate's mapping has another mapping but the keeper's. */
  lemma RepointAllowedIff(ms: Mappings, losers: seq<string>, keeper: string)
    ensures RepointAllowed(ms, losers, keeper) <==>
              !exists i, j :: i in ms && j in ms && i != j && ms[i].lago.Some? && ms[i].lago == ms[j].lago
                && ms[i].user.Some? && ms[i].user.value in losers && ms[j].user.Some? && ms[j].user.value != keeper
  {
    forall i | i in ms && OwnedBy(ms[i], losers)
      ensures TriggerAllows(ms, i, keeper) <==>
                !exists j :: j in ms && i != j && ms[i].lago.Some? && ms[i].lago == ms[j].lago
                  && ms[j].user.Some? && ms[j].user.value != keeper
    {
    }
    hide TriggerAllows;
  }

  /** A duplicate with two mappings of one Lago customer can never be merged. */
  lemma TwoMappingsBlockTheMerge(ms: Mappings, losers: seq<string>, keeper: string, i: nat, j: nat)
    requires keeper !in losers && i in ms && j in ms && i != j
    requires OwnedBy(ms[i], losers) && OwnedBy(ms[j], losers) && ms[i].lago.Some? && ms[i].lago == ms[j].lago
    ensures !RepointAllowed(ms, losers, keeper)
  {
    assert !TriggerAllows(ms, i, keeper);
  }

  // --- One group's transaction ------------------------------------------------------------------------------

  /** The partial unique index accepts the keeper's stamp. */
  predicate StampAllowed(users: map<string, User>, keeper: string, externalId: string)
    requires keeper in users
  {
    users[keeper].lago.Some? || forall u :: u in users && u != keeper ==> users[u].lago != Some(externalId)
  }

  predicate Allowed(t: Tables, p: Item) {
    p.keeper in t.users && p.externalId.Some?
    && StampAllowed(t.users, p.keeper, p.externalId.value) && RepointAllowed(t.mappings, p.losers, p.keeper)
  }

  predicate Skipped(p: Item) {
    !Truthy(p.externalId)
  }

  /** The UPDATE of the audit rows. */
  function AuditsMoved(audits: map<nat, Option<string>>, losers: seq<string>, keeper: string): map<nat, Option<string>> {
    map a | a in audits :: if audits[a].Some? && audits[a].value in losers then Some(keeper) else audits[a]
  }

  /** The DELETE of the sessions or accounts of some users. */
  function RowsKept(rows: map<string, string>, losers: seq<string>): map<string, string> {
    map r | r in rows && rows[r] !in losers :: rows[r]
  }

  function Merged(t: Tables, p: Item): Tables
    requires p.externalId.Some?
  {
    Tables(
      map u | u in t.users && u !in p.losers ::
        if u == p.keeper && t.users[u].lago == None then t.users[u].(lago := p.externalId) else t.users[u],
      Repointed(t.mappings, p.losers, p.keeper),
      AuditsMoved(t.audits, p.losers, p.keeper),
      RowsKept(t.sessions, p.losers),
      RowsKept(t.accounts, p.losers))
  }

  /** The tables after a plan, and whether every transaction went through; the first refusal ends the script. */
  function MergeAll(t: Tables, plan: seq<Item>): (Tables, bool) {
    if plan == [] then (t, true)
    else
      var p := plan[|plan| - 1];
      var (t', ok) := MergeAll(t, plan[..|plan| - 1]);
      if !ok || Skipped(p) then (t', ok)
      else if Allowed(t', p) then (Merged(t', p), true)
      else (t', false)
  }

  class Script {
    var t: Tables

    constructor (t: Tables)
      ensures this.t == t
    {
      this.t := t;
    }

    /** One transaction: every statement, or none of them. */
    method MergeGroup(p: Item) returns (ok: bool)
      requires p.externalId.Some? && p.keeper in t.users && p.keeper !in p.losers
      modifies this
      ensures ok == Allowed(old(t), p)
      ensures t == if ok then Merged(old(t), p) else old(t)
    {
      hide RepointAllowed, Repointed, AuditsMoved, RowsKept;
      var users := t.users;
      if users[p.keeper].lago == None {
        if exists u :: u in users && u != p.keeper && users[u].lago == p.externalId {
          return false;
        }
        users := users[p.keeper := users[p.keeper].(lago := p.externalId)];
      }
      var mappings := RepointMappings(t.mappings, p.losers, p.keeper);
      if mappings == None {
        return false;
      }
      var audits := AuditsMoved(t.audits, p.losers, p.keeper);
      var sessions := RowsKept(t.sessions, p.losers);
      var accounts := RowsKept(t.accounts, p.losers);
      users := map u | u in users && u !in p.losers :: users[u];
      t := Tables(users, mappings.value, audits, sessions, accounts);
      return true;
    }

    method Execute(dryRun: bool, find: Finder, rows: seq<LagoRow>, gs: seq<Group>) returns (ok: bool)
      requires AreGroups(t.users, gs) && Finds(t.mappings, find)
      modifies this
      ensures AllPlanned(gs)
      ensures (t, ok) == if dryRun then (old(t), true) else MergeAll(old(t), PlanOf(old(t).mappings, find, rows, gs))
    {
      hide Allowed, Merged, PlanFor, PlanOf, IsPlan, AreGroups, Finds;
      ghost var t0 := t;
      PlanIsPlan(t.mappings, find, rows, gs, t.users);
      var plan := BuildPlan(t.mappings, find, rows, gs);
      ok := true;
      if dryRun {
        return;
      }
      for i := 0 to |plan|
        invariant (t, true) == MergeAll(t0, plan[..i])
      {
        assert plan[..i + 1][..i] == plan[..i];
        if !Skipped(plan[i]) {
          KeepersStay(t0, plan, i);
          ok := MergeGroup(plan[i]);
          if !ok {
            AbortSticks(t0, plan, i + 1);
            return;
          }
        }
      }
      assert plan[..|plan|] == plan;
    }
  }

  // --- Plans from groups ---------------------------------------------------------------------------------------

  ghost predicate InItem(p: Item, u: string) {
    u == p.keeper || u in p.losers
  }

  /** Items about disjoint groups of existing users. */
  ghost predicate IsPlan(users: map<string, User>, plan: seq<Item>) {
    && (forall p :: p in plan ==> p.keeper !in p.losers && p.losers != [] && forall u :: InItem(p, u) ==> u in users)
    && (forall i, j, u :: 0 <= i < j < |plan| && InItem(plan[i], u) ==> !InItem(plan[j], u))
  }

  lemma PlanIsPlan(ms: Mappings, find: Finder, rows: seq<LagoRow>, gs: seq<Group>, users: map<string, User>)
    requires AreGroups(users, gs)
    ensures AllPlanned(gs) && IsPlan(users, PlanOf(ms, find, rows, gs))
  {
    var plan := PlanOf(ms, find, rows, gs);
    forall i, u | 0 <= i < |gs|
      ensures InItem(plan[i], u) <==> u in gs[i].ids
      ensures InItem(plan[i], u) ==> u in Emailless(users, gs[i].name)
    {
      MembersOfItem(ms, find, rows, gs[i], u);
      assert u in gs[i].ids <==> u in Elements(gs[i].ids);
    }
    forall p | p in plan
      ensures p.keeper !in p.losers && p.losers != [] && forall u :: InItem(p, u) ==> u in users
    {
      var i :| 0 <= i < |plan| && plan[i] == p;
    }
  }

  lemma MembersOfItem(ms: Mappings, find: Finder, rows: seq<LagoRow>, g: Group, u: string)
    requires g.ids != []
    ensures InItem(PlanFor(ms, find, rows, g), u) <==> u in g.ids
  {
    assert g.ids == [g.ids[0]] + g.ids[1..];
  }

  lemma {:induction false} AbortSticks(t: Tables, plan: seq<Item>, n: nat)
    requires n <= |plan| && !MergeAll(t, plan[..n]).1
    ensures MergeAll(t, plan) == MergeAll(t, plan[..n])
    decreases |plan|
  {
    if n < |plan| {
      assert plan[..|plan| - 1][..n] == plan[..n];
      AbortSticks(t, plan[..|plan| - 1], n);
    } else {
      assert plan[..n] == plan;
    }
  }

  // --- What a run does to the tables --------------------------------------------------------------------------

  /** The first item of the plan that merges `u` away, if any, sends it to its keeper. */
  function Canon(plan: seq<Item>, u: string): string {
    if plan == [] then u
    else
      var p := plan[|plan| - 1];
      if !Skipped(p) && u in p.losers then p.keeper else Canon(plan[..|plan| - 1], u)
  }

  function CanonOpt(plan: seq<Item>, u: Option<string>): Option<string> {
    if u == None then None else Some(Canon(plan, u.value))
  }

  /** `u` is a duplicate some resolved item of the plan removes. */
  ghost predicate Lost(plan: seq<Item>, u: string) {
    exists i :: 0 <= i < |plan| && !Skipped(plan[i]) && u in plan[i].losers
  }

  /** The Lago id a user carries after the plan: an unstamped keeper of a resolved item gets the item's. */
  function Stamped(plan: seq<Item>, u: string, lago: Option<string>): Option<string> {
    if plan == [] then lago
    else
      var p := plan[|plan| - 1];
      var earlier := Stamped(plan[..|plan| - 1], u, lago);
      if !Skipped(p) && u == p.keeper && earlier == None then p.externalId else earlier
  }

  /** Users: the lost ones are gone, the others keep everything but, for a keeper, the stamp. */
  ghost predicate UsersEffect(us: map<string, User>, plan: seq<Item>, us': map<string, User>) {
    && (forall u :: u in us' <==> u in us && !Lost(plan, u))
    && (forall u :: u in us' ==> us'[u] == us[u].(lago := Stamped(plan, u, us[u].lago)))
  }

  /** Mappings: the same rows, each owner replaced by the user it was merged into. */
  ghost predicate MappingsEffect(ms: Mappings, plan: seq<Item>, ms': Mappings) {
    ms'.Keys == ms.Keys && forall m :: m in ms ==> ms'[m] == ms[m].(user := CanonOpt(plan, ms[m].user))
  }

  ghost predicate AuditsEffect(audits: map<nat, Option<string>>, plan: seq<Item>, audits': map<nat, Option<string>>) {
    audits'.Keys == audits.Keys && forall a :: a in audits ==> audits'[a] == CanonOpt(plan, audits[a])
  }

  /** Sessions and accounts: exactly the rows of the lost users are gone. */
  ghost predicate RowsEffect(rs: map<string, string>, plan: seq<Item>, rs': map<string, string>) {
    && (forall r :: r in rs' <==> r in rs && !Lost(plan, rs[r]))
    && (forall r :: r in rs' ==> rs'[r] == rs[r])
  }

  ghost predicate Effect(t: Tables, plan: seq<Item>, t': Tables) {
    && UsersEffect(t.users, plan, t'.users)
    && MappingsEffect(t.mappings, plan, t'.mappings)
    && AuditsEffect(t.audits, plan, t'.audits)
    && RowsEffect(t.sessions, plan, t'.sessions)
    && RowsEffect(t.accounts, plan, t'.accounts)
  }

  lemma PrefixIsPlan(users: map<string, User>, plan: seq<Item>)
    requires IsPlan(users, plan) && plan != []
    ensures IsPlan(users, plan[..|plan| - 1])
    ensures forall i, u :: 0 <= i < |plan| - 1 && InItem(plan[i], u) ==> !InItem(plan[|plan| - 1], u)
  {
    var n := |plan| - 1;
    forall p | p in plan[..n]
      ensures p in plan
    {
    }
  }

  /** `i` is an item that merges `u` away. */
  ghost predicate MergesAway(plan: seq<Item>, i: int, u: string) {
    0 <= i < |plan| && !Skipped(plan[i]) && u in plan[i].losers
  }

  /** Owners are replaced only when lost, by the keeper of an item that merges them away. */
  lemma {:induction false} CanonMoves(plan: seq<Item>, u: string)
    ensures !Lost(plan, u) ==> Canon(plan, u) == u
    ensures Lost(plan, u) ==> exists i :: MergesAway(plan, i, u) && Canon(plan, u) == plan[i].keeper
  {
    if plan != [] {
      var n := |plan| - 1;
      CanonMoves(plan[..n], u);
      if Lost(plan[..n], u) {
        var i :| MergesAway(plan[..n], i, u) && Canon(plan[..n], u) == plan[..n][i].keeper;
        assert MergesAway(plan, i, u);
      }
      if MergesAway(plan, n, u) {
        assert Lost(plan, u);
      } else if Lost(plan, u) {
        var i :| 0 <= i < |plan| && !Skipped(plan[i]) && u in plan[i].losers;
        assert i < n && MergesAway(plan[..n], i, u);
      }
    }
  }

  /** Nobody is merged into a user who is merged away. */
  lemma KeepersAreNotLost(users: map<string, User>, plan: seq<Item>, k: nat)
    requires IsPlan(users, plan) && k < |plan|
    ensures !Lost(plan, plan[k].keeper)
  {
    assert plan[k] in plan && InItem(plan[k], plan[k].keeper);
    forall i | 0 <= i < |plan|
      ensures plan[k].keeper !in plan[i].losers
    {
      assert InItem(plan[i], plan[k].keeper) ==> i == k;
    }
  }

  lemma CanonStays(users: map<string, User>, plan: seq<Item>, u: string)
    requires IsPlan(users, plan)
    ensures (forall i :: 0 <= i < |plan| ==> !InItem(plan[i], u)) ==> Canon(plan, u) == u
    ensures !Lost(plan, u) ==> Canon(plan, u) == u
    ensures Lost(plan, u) ==> exists i :: MergesAway(plan, i, u) && Canon(plan, u) == plan[i].keeper
    ensures !Lost(plan, Canon(plan, u))
  {
    CanonMoves(plan, u);
    if Lost(plan, u) {
      var i :| MergesAway(plan, i, u) && Canon(plan, u) == plan[i].keeper;
      assert InItem(plan[i], u);
      KeepersAreNotLost(users, plan, i);
    }
  }

  /** Items that all went through have exactly this effect on every table. */
  lemma {:induction false} FinishedEffect(t: Tables, plan: seq<Item>)
    requires IsPlan(t.users, plan) && MergeAll(t, plan).1
    ensures Effect(t, plan, MergeAll(t, plan).0)
  {
    if plan != [] {
      var n := |plan| - 1;
      PrefixIsPlan(t.users, plan);
      FinishedEffect(t, plan[..n]);
      OneMoreItem(t, plan[..n], plan[n], MergeAll(t, plan[..n]).0);
      assert plan == plan[..n] + [plan[n]];
    }
  }

  lemma OneMoreItem(t: Tables, plan: seq<Item>, p: Item, t': Tables)
    requires IsPlan(t.users, plan + [p]) && IsPlan(t.users, plan) && Effect(t, plan, t')
    ensures Effect(t, plan + [p], if Skipped(p) then t' else Merged(t', p))
  {
    LostMore(plan, p);
    AllCanonMore(t.users, plan, p);
    hide CanonExtends, LostExtends, UsersEffect, MappingsEffect, AuditsEffect, RowsEffect, Merged;
    UsersMore(t, plan, p, t');
    RowsMore(t, plan, p, t');
    OwnersMore(t, plan, p, t');
  }

  /** How the owners known after `plan` move on under `p`. */
  ghost predicate CanonExtends(plan: seq<Item>, p: Item) {
    forall u :: Canon(plan + [p], u) == if !Skipped(p) && Canon(plan, u) in p.losers then p.keeper else Canon(plan, u)
  }

  lemma OwnersMore(t: Tables, plan: seq<Item>, p: Item, t': Tables)
    requires MappingsEffect(t.mappings, plan, t'.mappings) && AuditsEffect(t.audits, plan, t'.audits) && CanonExtends(plan, p)
    ensures MappingsEffect(t.mappings, plan + [p], if Skipped(p) then t'.mappings else Merged(t', p).mappings)
    ensures AuditsEffect(t.audits, plan + [p], if Skipped(p) then t'.audits else Merged(t', p).audits)
  {
    hide Canon, RepointAllowed;
  }

  ghost predicate LostExtends(plan: seq<Item>, p: Item) {
    forall u :: Lost(plan + [p], u) <==> Lost(plan, u) || (!Skipped(p) && u in p.losers)
  }

  lemma RowsMore(t: Tables, plan: seq<Item>, p: Item, t': Tables)
    requires RowsEffect(t.sessions, plan, t'.sessions) && RowsEffect(t.accounts, plan, t'.accounts) && LostExtends(plan, p)
    ensures RowsEffect(t.sessions, plan + [p], if Skipped(p) then t'.sessions else Merged(t', p).sessions)
    ensures RowsEffect(t.accounts, plan + [p], if Skipped(p) then t'.accounts else Merged(t', p).accounts)
  {
    hide Lost, Repointed;
  }

  lemma LostMore(plan: seq<Item>, p: Item)
    ensures LostExtends(plan, p)
  {
    var all := plan + [p];
    assert all[|plan|] == p;
    forall u ensures Lost(all, u) <==> Lost(plan, u) || (!Skipped(p) && u in p.losers) {
      if Lost(plan, u) {
        var i :| 0 <= i < |plan| && !Skipped(plan[i]) && u in plan[i].losers;
        assert all[i] == plan[i];
      }
    }
  }

  lemma AllCanonMore(users: map<string, User>, plan: seq<Item>, p: Item)
    requires IsPlan(users, plan + [p]) && IsPlan(users, plan)
    ensures CanonExtends(plan, p)
  {
    forall u ensures Canon(plan + [p], u) == if !Skipped(p) && Canon(plan, u) in p.losers then p.keeper else Canon(plan, u) {
      CanonMore(users, plan, p, u);
    }
  }

  /** A keeper of an earlier item is not lost later, so owners are moved at most once. */
  lemma CanonMore(users: map<string, User>, plan: seq<Item>, p: Item, u: string)
    requires IsPlan(users, plan + [p]) && IsPlan(users, plan)
    ensures Canon(plan + [p], u) == if !Skipped(p) && Canon(plan, u) in p.losers then p.keeper else Canon(plan, u)
  {
    var all := plan + [p];
    assert all[..|plan|] == plan && all[|plan|] == p;
    CanonStays(users, plan, u);
    if u in p.losers {
      forall i | 0 <= i < |plan| ensures !InItem(plan[i], u) {
        assert all[i] == plan[i] && InItem(all[|plan|], u);
      }
    } else if Lost(plan, u) {
      var i :| MergesAway(plan, i, u) && Canon(plan, u) == plan[i].keeper;
      assert all[i] == plan[i] && InItem(all[i], Canon(plan, u));
      assert !InItem(all[|plan|], Canon(plan, u));
    }
  }

  lemma UsersMore(t: Tables, plan: seq<Item>, p: Item, t': Tables)
    requires UsersEffect(t.users, plan, t'.users) && LostExtends(plan, p)
    ensures UsersEffect(t.users, plan + [p], if Skipped(p) then t'.users else Merged(t', p).users)
  {
    hide Lost, Repointed;
    assert (plan + [p])[..|plan|] == plan && (plan + [p])[|plan|] == p;
  }

  lemma KeepersStay(t: Tables, plan: seq<Item>, n: nat)
    requires IsPlan(t.users, plan) && n < |plan| && MergeAll(t, plan[..n]).1
    ensures plan[n].keeper in MergeAll(t, plan[..n]).0.users && plan[n].keeper !in plan[n].losers
  {
    PlanPrefix(t.users, plan, n);
    FinishedEffect(t, plan[..n]);
    assert plan[n] in plan && InItem(plan[n], plan[n].keeper);
    if Lost(plan[..n], plan[n].keeper) {
      var i :| 0 <= i < n && plan[n].keeper in plan[..n][i].losers;
      assert InItem(plan[i], plan[n].keeper);
    }
  }

  lemma PlanPrefix(users: map<string, User>, plan: seq<Item>, n: nat)
    requires IsPlan(users, plan) && n <= |plan|
    ensures IsPlan(users, plan[..n])
  {
    forall p | p in plan[..n]
      ensures p in plan
    {
    }
  }

  // --- How far the script gets ---------------------------------------------------------------------------------

  /** The Lago id of item `k` is on no other user the database still has when the item's turn comes. */
  ghost predicate StampOk(users: map<string, User>, plan: seq<Item>, k: nat)
    requires k < |plan|
  {
    || (plan[k].keeper in users && users[plan[k].keeper].lago.Some?)
    || forall u :: u in users && u != plan[k].keeper && !Lost(plan[..k], u) ==> Stamped(plan[..k], u, users[u].lago) != plan[k].externalId
  }

  /** What the database's two rules ask of item `k`, read off the tables before the run. */
  ghost predicate GoesThrough(t: Tables, plan: seq<Item>, k: nat)
    requires k < |plan|
  {
    Skipped(plan[k]) || (StampOk(t.users, plan, k) && RepointAllowed(t.mappings, plan[k].losers, plan[k].keeper))
  }

  ghost function ReachedFrom(t: Tables, plan: seq<Item>, k: nat): (d: nat)
    requires k <= |plan|
    ensures k <= d <= |plan|
    ensures forall i :: k <= i < d ==> GoesThrough(t, plan, i)
    ensures d < |plan| ==> !GoesThrough(t, plan, d)
    decreases |plan| - k
  {
    if k == |plan| || !GoesThrough(t, plan, k) then k else ReachedFrom(t, plan, k + 1)
  }

  /** How many items go through before the first one that does not. */
  ghost function Reached(t: Tables, plan: seq<Item>): (d: nat)
    ensures d <= |plan|
    ensures forall i :: 0 <= i < d ==> GoesThrough(t, plan, i)
    ensures d < |plan| ==> !GoesThrough(t, plan, d)
  {
    ReachedFrom(t, plan, 0)
  }

  /** The items before `k` neither moved a member of item `k` nor moved anybody to one. */
  lemma CanonOutside(users: map<string, User>, plan: seq<Item>, k: nat, u: string)
    requires IsPlan(users, plan) && k < |plan|
    ensures InItem(plan[k], u) || InItem(plan[k], Canon(plan[..k], u)) ==> Canon(plan[..k], u) == u
  {
    PlanPrefix(users, plan, k);
    CanonStays(users, plan[..k], u);
    if Lost(plan[..k], u) {
      var i :| MergesAway(plan[..k], i, u) && Canon(plan[..k], u) == plan[..k][i].keeper;
      assert InItem(plan[i], u) && InItem(plan[i], plan[i].keeper);
    }
  }

  lemma RepointAllowedAtTurn(t: Tables, plan: seq<Item>, k: nat, ms': Mappings)
    requires IsPlan(t.users, plan) && k < |plan| && MappingsEffect(t.mappings, plan[..k], ms')
    ensures RepointAllowed(ms', plan[k].losers, plan[k].keeper) <==> RepointAllowed(t.mappings, plan[k].losers, plan[k].keeper)
  {
    hide IsPlan, Canon;
    var ms, p := t.mappings, plan[k];
    forall id | id in ms && ms[id].user.Some?
      ensures ms'[id].lago == ms[id].lago && ms'[id].user.Some?
      ensures InItem(p, ms[id].user.value) || InItem(p, ms'[id].user.value) ==> ms'[id].user == ms[id].user
    {
      CanonOutside(t.users, plan, k, ms[id].user.value);
    }
    forall id | id in ms
      ensures ms'[id].lago == ms[id].lago && (OwnedBy(ms'[id], p.losers) <==> OwnedBy(ms[id], p.losers))
      ensures ms'[id].user.Some? <==> ms[id].user.Some?
      ensures ms'[id].user == Some(p.keeper) <==> ms[id].user == Some(p.keeper)
    {
    }
    forall id | id in ms
      ensures TriggerAllows(ms', id, p.keeper) <==> TriggerAllows(ms, id, p.keeper)
    {
    }
  }

  lemma {:induction false} StampedOutside(plan: seq<Item>, u: string, lago: Option<string>)
    requires forall i :: 0 <= i < |plan| ==> !InItem(plan[i], u)
    ensures Stamped(plan, u, lago) == lago
  {
    if plan != [] {
      StampedOutside(plan[..|plan| - 1], u, lago);
    }
  }

  /** The items before `k` neither stamp nor remove a member of item `k`. */
  lemma NotBefore(users: map<string, User>, plan: seq<Item>, k: nat, u: string)
    requires IsPlan(users, plan) && k < |plan| && InItem(plan[k], u)
    ensures u in users && !Lost(plan[..k], u) && forall lago :: Stamped(plan[..k], u, lago) == lago
    ensures u in plan[k].losers ==> u != plan[k].keeper
  {
    assert plan[k] in plan;
    forall i | 0 <= i < k
      ensures !InItem(plan[..k][i], u)
    {
    }
    forall lago ensures Stamped(plan[..k], u, lago) == lago {
      StampedOutside(plan[..k], u, lago);
    }
  }

  lemma StampAllowedAtTurn(t: Tables, plan: seq<Item>, k: nat, users': map<string, User>)
    requires IsPlan(t.users, plan) && k < |plan| && UsersEffect(t.users, plan[..k], users') && plan[k].keeper in users'
    requires plan[k].externalId.Some?
    ensures StampAllowed(users', plan[k].keeper, plan[k].externalId.value) <==> StampOk(t.users, plan, k)
  {
    hide Lost, Stamped;
    NotBefore(t.users, plan, k, plan[k].keeper);
  }

  /** With the items before it done, an item is accepted by the tables of then iff the starting tables say so. */
  lemma TurnOf(t: Tables, plan: seq<Item>, k: nat)
    requires IsPlan(t.users, plan) && k < |plan| && MergeAll(t, plan[..k]).1
    ensures MergeAll(t, plan[..k + 1]).1 <==> GoesThrough(t, plan, k)
  {
    hide IsPlan, RepointAllowed, StampAllowed, StampOk, UsersEffect, MappingsEffect, AuditsEffect, RowsEffect, Merged, Lost;
    PlanPrefix(t.users, plan, k);
    FinishedEffect(t, plan[..k]);
    KeepersStay(t, plan, k);
    assert plan[..k + 1][..k] == plan[..k];
    var t' := MergeAll(t, plan[..k]).0;
    if !Skipped(plan[k]) {
      RepointAllowedAtTurn(t, plan, k, t'.mappings);
      StampAllowedAtTurn(t, plan, k, t'.users);
    }
  }

  lemma {:induction false} PrefixGoesThrough(t: Tables, plan: seq<Item>, k: nat)
    requires IsPlan(t.users, plan) && k <= Reached(t, plan)
    ensures MergeAll(t, plan[..k]).1
  {
    hide IsPlan, GoesThrough;
    if k > 0 {
      PrefixGoesThrough(t, plan, k - 1);
      TurnOf(t, plan, k - 1);
    }
  }

  /** The run is the items before the first refusal, and nothing of the others. */
  lemma RunStopsAtTheRefusal(t: Tables, plan: seq<Item>)
    requires IsPlan(t.users, plan)
    ensures var d := Reached(t, plan); MergeAll(t, plan[..d]).1 && MergeAll(t, plan) == (MergeAll(t, plan[..d]).0, d == |plan|)
  {
    hide IsPlan, GoesThrough;
    var d := Reached(t, plan);
    PrefixGoesThrough(t, plan, d);
    if d == |plan| {
      assert plan[..d] == plan;
    } else {
      TurnOf(t, plan, d);
      AbortSticks(t, plan, d + 1);
      assert plan[..d + 1][..d] == plan[..d];
    }
  }

  /** The script finishes iff the database accepts every item, which the starting tables decide. */
  lemma FinishesIff(t: Tables, plan: seq<Item>)
    requires IsPlan(t.users, plan)
    ensures MergeAll(t, plan).1 <==> forall k :: 0 <= k < |plan| ==> GoesThrough(t, plan, k)
  {
    hide IsPlan, GoesThrough;
    RunStopsAtTheRefusal(t, plan);
  }

  /** Every run, finished or stopped, has exactly the effect of the items it reached. */
  lemma MergeEffect(t: Tables, plan: seq<Item>)
    requires IsPlan(t.users, plan)
    ensures Effect(t, plan[..Reached(t, plan)], MergeAll(t, plan).0)
  {
    hide IsPlan, Effect;
    RunStopsAtTheRefusal(t, plan);
    PlanPrefix(t.users, plan, Reached(t, plan));
    FinishedEffect(t, plan[..Reached(t, plan)]);
  }

  // --- What the database refuses -------------------------------------------------------------------------------

  lemma RefusalStopsTheScript(t: Tables, plan: seq<Item>, k: nat)
    requires IsPlan(t.users, plan) && k < |plan| && !GoesThrough(t, plan, k)
    ensures !MergeAll(t, plan).1 && Reached(t, plan) <= k
  {
    hide IsPlan, GoesThrough;
    RunStopsAtTheRefusal(t, plan);
  }

  /** A duplicate that owns two mappings of one Lago customer stops the script: the trigger refuses the first one moved. */
  lemma TwoMappingsStopTheScript(t: Tables, plan: seq<Item>, k: nat, i: nat, j: nat)
    requires IsPlan(t.users, plan) && k < |plan| && !Skipped(plan[k])
    requires i in t.mappings && j in t.mappings && i != j && t.mappings[i].lago.Some? && t.mappings[i].lago == t.mappings[j].lago
    requires OwnedBy(t.mappings[i], plan[k].losers) && OwnedBy(t.mappings[j], plan[k].losers)
    ensures !MergeAll(t, plan).1 && Reached(t, plan) <= k
  {
    assert plan[k] in plan;
    hide MergeAll, IsPlan, RepointAllowed, OwnedBy;
    TwoMappingsBlockTheMerge(t.mappings, plan[k].losers, plan[k].keeper, i, j);
    RefusalStopsTheScript(t, plan, k);
  }

  /** A duplicate that carries the item's Lago id stops the script unless the keeper carries one too: the index refuses the stamp. */
  lemma StampedDuplicateStopsTheScript(t: Tables, plan: seq<Item>, k: nat, u: string)
    requires IsPlan(t.users, plan) && k < |plan| && !Skipped(plan[k])
    requires u in plan[k].losers && u in t.users && t.users[u].lago == plan[k].externalId
    requires plan[k].keeper in t.users && t.users[plan[k].keeper].lago == None
    ensures !MergeAll(t, plan).1 && Reached(t, plan) <= k
  {
    NotBefore(t.users, plan, k, u);
    hide IsPlan, RepointAllowed, MergeAll, Lost, Stamped;
    RefusalStopsTheScript(t, plan, k);
  }

  /**
   So it is after migration 0030, which stamped each user with the one Lago customer of its mappings: a group
   whose resolving mapping belongs to a newer user, with the oldest still unstamped, ends the script.
  */
  lemma MigratedStampStopsTheScript(t: Tables, gs: seq<Group>, find: Finder, rows: seq<LagoRow>, k: nat, m: nat)
    requires AreGroups(t.users, gs) && AllPlanned(gs) && Finds(t.mappings, find) && k < |gs|
    requires find(gs[k].ids) == Some(m) && m in t.mappings && Truthy(t.mappings[m].lago)
    requires var owner := t.mappings[m].user.value;
             owner != gs[k].ids[0] && owner in t.users && t.users[owner].lago == t.mappings[m].lago
    requires gs[k].ids[0] in t.users && t.users[gs[k].ids[0]].lago == None
    ensures !MergeAll(t, PlanOf(t.mappings, find, rows, gs)).1
  {
    var plan := PlanOf(t.mappings, find, rows, gs);
    PlanIsPlan(t.mappings, find, rows, gs, t.users);
    hide MergeAll, IsPlan, AreGroups;
    var owner := t.mappings[m].user.value;
    MembersOfItem(t.mappings, find, rows, gs[k], owner);
    StampedDuplicateStopsTheScript(t, plan, k, owner);
  }

  // --- What every run leaves -----------------------------------------------------------------------------------

  lemma MergedIntoAUser(users: map<string, User>, plan: seq<Item>, u: string)
    requires IsPlan(users, plan) && Lost(plan, u)
    ensures Canon(plan, u) in users
  {
    CanonMoves(plan, u);
    var i :| MergesAway(plan, i, u) && Canon(plan, u) == plan[i].keeper;
    assert plan[i] in plan && InItem(plan[i], plan[i].keeper);
  }

  /** Every reference the four tables hold is to a user that exists. */
  ghost predicate NoDangling(t: Tables) {
    && (forall m :: m in t.mappings && t.mappings[m].user.Some? ==> t.mappings[m].user.value in t.users)
    && (forall a :: a in t.audits && t.audits[a].Some? ==> t.audits[a].value in t.users)
    && (forall s :: s in t.sessions ==> t.sessions[s] in t.users)
    && (forall a :: a in t.accounts ==> t.accounts[a] in t.users)
  }

  /** However far the script gets, no mapping, audit row, session or account is left pointing at a deleted user. */
  lemma MergeLeavesNoDangling(t: Tables, plan: seq<Item>)
    requires IsPlan(t.users, plan) && NoDangling(t)
    ensures NoDangling(MergeAll(t, plan).0)
  {
    hide MergeAll, Effect, IsPlan, NoDangling;
    MergeEffect(t, plan);
    PlanPrefix(t.users, plan, Reached(t, plan));
    EffectLeavesNoDangling(t, plan[..Reached(t, plan)], MergeAll(t, plan).0);
  }

  lemma EffectLeavesNoDangling(t: Tables, plan: seq<Item>, t': Tables)
    requires IsPlan(t.users, plan) && Effect(t, plan, t') && NoDangling(t)
    ensures NoDangling(t')
  {
    hide IsPlan, UsersEffect;
    forall u | u in t.users
      ensures Canon(plan, u) in t'.users
      ensures !Lost(plan, u) ==> u in t'.users
    {
      CanonExists(t.users, plan, u, t'.users);
    }
    hide Canon, Lost;
  }

  lemma CanonExists(users: map<string, User>, plan: seq<Item>, u: string, users': map<string, User>)
    requires IsPlan(users, plan) && UsersEffect(users, plan, users') && u in users
    ensures Canon(plan, u) in users' && (!Lost(plan, u) ==> u in users')
  {
    hide Canon, Lost, Stamped, IsPlan, MergesAway;
    CanonStays(users, plan, u);
    if Lost(plan, u) {
      MergedIntoAUser(users, plan, u);
    }
  }

  /** The item was reached and had a Lago customer, so its group is merged. */
  ghost predicate IsMerged(t: Tables, plan: seq<Item>, k: nat)
    requires k < |plan|
  {
    k < Reached(t, plan) && !Skipped(plan[k])
  }

  /** An item reached is merged iff it has a Lago id that is not empty. */
  lemma MergedIff(t: Tables, plan: seq<Item>, k: nat)
    requires k < |plan|
    ensures IsMerged(t, plan, k) <==> k < Reached(t, plan) && plan[k].externalId.Some? && plan[k].externalId.value != ""
    ensures plan[k].externalId == None || plan[k].externalId.value == "" ==> GoesThrough(t, plan, k)
  {
    hide Reached, StampOk, RepointAllowed;
  }

  /** Of each merged group exactly the keeper is left, its oldest user; every other group stays whole. */
  lemma OnlyTheOldestStays(t: Tables, gs: seq<Group>, find: Finder, rows: seq<LagoRow>, k: nat)
    requires AreGroups(t.users, gs) && AllPlanned(gs) && k < |gs|
    ensures var plan := PlanOf(t.mappings, find, rows, gs);
            var t', keeper := MergeAll(t, plan).0, plan[k].keeper;
            && Emailless(t'.users, gs[k].name) == (if IsMerged(t, plan, k) then {keeper} else Emailless(t.users, gs[k].name))
            && keeper in Emailless(t.users, gs[k].name)
            && forall u :: u in Emailless(t.users, gs[k].name) ==> t.users[keeper].created <= t.users[u].created
  {
    var plan := PlanOf(t.mappings, find, rows, gs);
    PlanIsPlan(t.mappings, find, rows, gs, t.users);
    assert IsGroup(t.users, gs[k]);
    FirstIsOldest(t.users, gs[k]);
    forall u ensures u in Emailless(t.users, gs[k].name) <==> InItem(plan[k], u) {
      MembersOfItem(t.mappings, find, rows, gs[k], u);
    }
    hide PlanOf, MergeAll, AreGroups, IsGroup, IsPlan, IsMerged;
    LeftOfTheItem(t, plan, k, gs[k].name);
  }

  lemma LeftOfTheItem(t: Tables, plan: seq<Item>, k: nat, name: Option<string>)
    requires IsPlan(t.users, plan) && k < |plan|
    requires forall u :: u in Emailless(t.users, name) <==> InItem(plan[k], u)
    ensures Emailless(MergeAll(t, plan).0.users, name) == if IsMerged(t, plan, k) then {plan[k].keeper} else Emailless(t.users, name)
  {
    var d := Reached(t, plan);
    MergeEffect(t, plan);
    assert plan[k] in plan && InItem(plan[k], plan[k].keeper);
    forall u | InItem(plan[k], u)
      ensures Lost(plan[..d], u) <==> IsMerged(t, plan, k) && u in plan[k].losers
    {
      LostFromOwnGroup(t.users, plan, d, k, u);
    }
    hide IsPlan, Lost, Stamped, IsMerged, MergeAll;
    LeftOfTheGroup(t.users, plan[..d], MergeAll(t, plan).0.users, name);
  }

  /** Whoever is not lost keeps name, mail and role. */
  lemma LeftOfTheGroup(users: map<string, User>, plan: seq<Item>, users': map<string, User>, name: Option<string>)
    requires UsersEffect(users, plan, users')
    ensures forall u :: u in Emailless(users', name) <==> u in Emailless(users, name) && !Lost(plan, u)
  {
    hide Lost, Stamped;
  }

  lemma FirstIsOldest(users: map<string, User>, g: Group)
    requires IsGroup(users, g)
    ensures forall u :: u in Emailless(users, g.name) <==> u in g.ids
    ensures forall u :: u in g.ids ==> u in users && users[g.ids[0]].created <= users[u].created
  {
    forall u ensures u in Emailless(users, g.name) <==> u in g.ids {
      assert u in g.ids <==> u in Elements(g.ids);
    }
    forall u | u in g.ids
      ensures users[g.ids[0]].created <= users[u].created
    {
      var j :| 0 <= j < |g.ids| && g.ids[j] == u;
    }
  }

  lemma LostFromOwnGroup(users: map<string, User>, plan: seq<Item>, d: nat, k: nat, u: string)
    requires IsPlan(users, plan) && d <= |plan| && k < |plan| && InItem(plan[k], u)
    ensures Lost(plan[..d], u) <==> k < d && !Skipped(plan[k]) && u in plan[k].losers
  {
    if Lost(plan[..d], u) {
      var i :| 0 <= i < d && !Skipped(plan[..d][i]) && u in plan[..d][i].losers;
      assert InItem(plan[i], u);
      assert i == k;
    }
    if k < d {
      assert plan[..d][k] == plan[k];
    }
  }

  /** A second run finds exactly the groups the first one did not merge: no other name is shared any more. */
  lemma SecondRunFindsTheRest(t: Tables, gs: seq<Group>, find: Finder, rows: seq<LagoRow>, gs': seq<Group>, name: Option<string>)
    requires AreGroups(t.users, gs) && AllPlanned(gs)
    requires AreGroups(MergeAll(t, PlanOf(t.mappings, find, rows, gs)).0.users, gs')
    ensures (exists j :: 0 <= j < |gs'| && gs'[j].name == name) <==>
              exists k :: 0 <= k < |gs| && gs[k].name == name && !IsMerged(t, PlanOf(t.mappings, find, rows, gs), k)
  {
    hide MergeAll, IsGroup, IsMerged;
    var plan := PlanOf(t.mappings, find, rows, gs);
    var t' := MergeAll(t, plan).0;
    if exists j :: 0 <= j < |gs'| && gs'[j].name == name {
      var j :| 0 <= j < |gs'| && gs'[j].name == name;
      var u, v := SharedName(t'.users, gs'[j]);
      WasShared(t, gs, find, rows, u, v);
      var k :| 0 <= k < |gs| && gs[k].name == name;
      OnlyTheOldestStays(t, gs, find, rows, k);
    }
    if exists k :: 0 <= k < |gs| && gs[k].name == name && !IsMerged(t, plan, k) {
      var k :| 0 <= k < |gs| && gs[k].name == name && !IsMerged(t, plan, k);
      OnlyTheOldestStays(t, gs, find, rows, k);
      var u, v := SharedName(t.users, gs[k]);
      assert u in Emailless(t'.users, name) && v in Emailless(t'.users, name);
    }
  }

  /** A name shared after the run was shared before it. */
  lemma WasShared(t: Tables, gs: seq<Group>, find: Finder, rows: seq<LagoRow>, u: string, v: string)
    requires AreGroups(t.users, gs) && AllPlanned(gs)
    requires var us' := MergeAll(t, PlanOf(t.mappings, find, rows, gs)).0.users;
             && u != v && u in us' && v in us' && us'[u].name == us'[v].name
             && u in Emailless(us', us'[u].name) && v in Emailless(us', us'[u].name)
    ensures exists k :: 0 <= k < |gs| && gs[k].name == MergeAll(t, PlanOf(t.mappings, find, rows, gs)).0.users[u].name
  {
    var plan := PlanOf(t.mappings, find, rows, gs);
    var us' := MergeAll(t, plan).0.users;
    PlanIsPlan(t.mappings, find, rows, gs, t.users);
    MergeEffect(t, plan);
    hide MergeAll, PlanOf, IsPlan, Lost, Stamped, IsGroup, Reached;
    LeftOfTheGroup(t.users, plan[..Reached(t, plan)], us', us'[u].name);
    assert t.users[u].name == t.users[v].name == us'[u].name;
  }

  lemma SharedName(users: map<string, User>, g: Group) returns (u: string, v: string)
    requires IsGroup(users, g)
    ensures u != v && u in Emailless(users, g.name) && v in Emailless(users, g.name)
  {
    u, v := g.ids[0], g.ids[1];
    assert u in Elements(g.ids) && v in Elements(g.ids);
  }

  // --- Group by group ----------------------------------------------------------------------------------------

  /**
   What a merged group comes to: the keeper carries the Lago id it had, or else the item's, and owns all its
   members' mappings and audit rows.
  */
  lemma MergedGroup(t: Tables, plan: seq<Item>, k: nat)
    requires IsPlan(t.users, plan) && k < |plan| && IsMerged(t, plan, k)
    ensures var t', p := MergeAll(t, plan).0, plan[k];
            && p.keeper in t.users && p.keeper in t'.users
            && t'.users[p.keeper] ==
                 t.users[p.keeper].(lago := if t.users[p.keeper].lago.Some? then t.users[p.keeper].lago else p.externalId)
            && (forall u :: u in p.losers ==> u !in t'.users)
            && (forall m :: m in t.mappings && t.mappings[m].user.Some? && t.mappings[m].user.value in p.losers ==>
                  m in t'.mappings && t'.mappings[m] == t.mappings[m].(user := Some(p.keeper)))
            && (forall a :: a in t.audits && t.audits[a].Some? && t.audits[a].value in p.losers ==>
                  a in t'.audits && t'.audits[a] == Some(p.keeper))
  {
    var d, p, t' := Reached(t, plan), plan[k], MergeAll(t, plan).0;
    MergeEffect(t, plan);
    PlanPrefix(t.users, plan, d);
    assert plan[..d][k] == p && p in plan && InItem(p, p.keeper);
    KeepersAreNotLost(t.users, plan[..d], k);
    StampedOnce(t.users, plan[..d], k, t.users[p.keeper].lago);
    forall u | u in p.losers
      ensures Lost(plan[..d], u) && Canon(plan[..d], u) == p.keeper
    {
      LostFromOwnGroup(t.users, plan, d, k, u);
      MovedToTheKeeper(t.users, plan[..d], k, u);
    }
    hide MergeAll, IsPlan, IsMerged, Lost, Canon, Stamped, Reached;
  }

  lemma {:induction false} StampedOnce(users: map<string, User>, plan: seq<Item>, k: nat, lago: Option<string>)
    requires IsPlan(users, plan) && k < |plan| && !Skipped(plan[k])
    ensures Stamped(plan, plan[k].keeper, lago) == if lago.Some? then lago else plan[k].externalId
  {
    var n := |plan| - 1;
    var u := plan[k].keeper;
    PrefixIsPlan(users, plan);
    assert InItem(plan[k], u);
    if k < n {
      StampedOnce(users, plan[..n], k, lago);
    } else {
      forall i | 0 <= i < n
        ensures !InItem(plan[..n][i], u)
      {
      }
      StampedOutside(plan[..n], u, lago);
    }
  }

  /** No other user is touched: not one with a mail or of staff, nor one whose group was not merged or who has the name alone. */
  lemma OthersAreUntouched(t: Tables, gs: seq<Group>, find: Finder, rows: seq<LagoRow>, u: string)
    requires AreGroups(t.users, gs) && AllPlanned(gs) && u in t.users
    requires var plan := PlanOf(t.mappings, find, rows, gs);
             t.users[u].email.Some? || !t.users[u].customer ||
             forall k :: 0 <= k < |gs| && gs[k].name == t.users[u].name ==> !IsMerged(t, plan, k)
    ensures var t' := MergeAll(t, PlanOf(t.mappings, find, rows, gs)).0;
            && u in t'.users && t'.users[u] == t.users[u]
            && (forall m :: m in t.mappings && t.mappings[m].user == Some(u) ==> m in t'.mappings && t'.mappings[m] == t.mappings[m])
            && (forall r :: r in t.sessions && t.sessions[r] == u ==> r in t'.sessions && t'.sessions[r] == u)
            && (forall r :: r in t.accounts && t.accounts[r] == u ==> r in t'.accounts && t'.accounts[r] == u)
  {
    var plan := PlanOf(t.mappings, find, rows, gs);
    var d := Reached(t, plan);
    PlanIsPlan(t.mappings, find, rows, gs, t.users);
    MergeEffect(t, plan);
    PlanPrefix(t.users, plan, d);
    forall k | 0 <= k < d && !Skipped(plan[..d][k])
      ensures !InItem(plan[..d][k], u)
    {
      assert IsGroup(t.users, gs[k]);
      FirstIsOldest(t.users, gs[k]);
      MembersOfItem(t.mappings, find, rows, gs[k], u);
      assert IsMerged(t, plan, k);
    }
    hide PlanOf, MergeAll, AreGroups, IsPlan, IsMerged, Reached;
    StampedInNone(plan[..d], u, t.users[u].lago);
    CanonMoves(plan[..d], u);
    hide Canon, Stamped;
  }

  lemma {:induction false} StampedInNone(plan: seq<Item>, u: string, lago: Option<string>)
    requires forall i :: 0 <= i < |plan| && !Skipped(plan[i]) ==> !InItem(plan[i], u)
    ensures Stamped(plan, u, lago) == lago
  {
    if plan != [] {
      StampedInNone(plan[..|plan| - 1], u, lago);
    }
  }

  // --- One customer or several ---------------------------------------------------------------------------------

  predicate OwnedIn(m: Mapping, owners: set<string>) {
    m.user.Some? && m.user.value in owners
  }

  /** All mappings these users own are of one Lago customer. */
  ghost predicate OneCustomer(ms: Mappings, owners: set<string>) {
    forall i, j :: i in ms && j in ms && OwnedIn(ms[i], owners) && OwnedIn(ms[j], owners) && ms[i].lago.Some? && ms[j].lago.Some?
      ==> ms[i].lago == ms[j].lago
  }

  function Members(p: Item): set<string> {
    {p.keeper} + set u | u in p.losers
  }

  lemma MovedToTheKeeper(users: map<string, User>, plan: seq<Item>, k: nat, u: string)
    requires IsPlan(users, plan) && k < |plan| && !Skipped(plan[k])
    ensures Canon(plan, u) == plan[k].keeper <==> u in Members(plan[k])
  {
    CanonStays(users, plan, u);
    assert InItem(plan[k], plan[k].keeper) && (InItem(plan[k], u) <==> u in Members(plan[k]));
    KeepersAreNotLost(users, plan, k);
    if Lost(plan, u) {
      var i :| MergesAway(plan, i, u) && Canon(plan, u) == plan[i].keeper;
      assert InItem(plan[i], u) && InItem(plan[i], plan[i].keeper);
    } else {
      assert u !in plan[k].losers;
    }
  }

  /** A merged account is one Lago customer's iff its group was: the script groups by name and never compares customers. */
  lemma MergedIsOneCustomerIff(t: Tables, plan: seq<Item>, k: nat)
    requires IsPlan(t.users, plan) && k < |plan| && IsMerged(t, plan, k)
    ensures OneCustomer(MergeAll(t, plan).0.mappings, {plan[k].keeper}) <==> OneCustomer(t.mappings, Members(plan[k]))
  {
    var d, ms, ms' := Reached(t, plan), t.mappings, MergeAll(t, plan).0.mappings;
    MergeEffect(t, plan);
    PlanPrefix(t.users, plan, d);
    assert plan[..d][k] == plan[k];
    forall id | id in ms && ms[id].user.Some?
      ensures ms'[id].user.Some? && (ms'[id].user.value in {plan[k].keeper} <==> ms[id].user.value in Members(plan[k]))
    {
      MovedToTheKeeper(t.users, plan[..d], k, ms[id].user.value);
    }
    hide IsPlan, MergeAll, IsMerged, Members, Canon;
  }

  /** All customers without a name are one group: two of different Lago customers become one account that owns both. */
  lemma NamelessCustomersAreMixed(t: Tables, find: Finder, rows: seq<LagoRow>)
    requires t.users == map["a" := User(None, None, true, None, 1), "b" := User(None, None, true, None, 2)]
    requires t.mappings == map[0 := Mapping(Some("X"), Some("a")), 1 := Mapping(Some("Y"), Some("b"))]
    requires find(["a", "b"]) == Some(0)
    ensures var gs := [Group(None, ["a", "b"])];
            && AreGroups(t.users, gs) && AllPlanned(gs)
            && var (t', ok) := MergeAll(t, PlanOf(t.mappings, find, rows, gs));
               ok && t'.mappings == map[0 := Mapping(Some("X"), Some("a")), 1 := Mapping(Some("Y"), Some("a"))]
  {
    var g, p := Group(None, ["a", "b"]), Item(Some("X"), "a", ["b"]);
    hide PlanOf, AreGroups, Allowed, Merged, IsGroup, MergeAll, Skipped;
    NamelessGroup(t.users);
    NamelessPlan(t.mappings, find, rows, g);
    OneItem(t, p);
    BothMove(t, p);
  }

  lemma NamelessPlan(ms: Mappings, find: Finder, rows: seq<LagoRow>, g: Group)
    requires g == Group(None, ["a", "b"]) && find(["a", "b"]) == Some(0)
    requires ms == map[0 := Mapping(Some("X"), Some("a")), 1 := Mapping(Some("Y"), Some("b"))]
    ensures AllPlanned([g]) && PlanOf(ms, find, rows, [g]) == [Item(Some("X"), "a", ["b"])]
    ensures !Skipped(Item(Some("X"), "a", ["b"]))
  {
    assert g.ids[1..] == ["b"];
    assert PlanFor(ms, find, rows, g) == Item(Some("X"), "a", ["b"]);
    hide PlanFor;
  }

  lemma NamelessGroup(users: map<string, User>)
    requires users == map["a" := User(None, None, true, None, 1), "b" := User(None, None, true, None, 2)]
    ensures AreGroups(users, [Group(None, ["a", "b"])])
  {
    var g := Group(None, ["a", "b"]);
    assert Elements(g.ids) == {"a", "b"};
    assert Emailless(users, None) == {"a", "b"};
    assert IsGroup(users, g);
    hide IsGroup;
    assert [g][0].name == None;
  }

  lemma BothMove(t: Tables, p: Item)
    requires "a" in t.users && "b" in t.users && t.users.Keys == {"a", "b"} && t.users["b"].lago == None
    requires t.mappings == map[0 := Mapping(Some("X"), Some("a")), 1 := Mapping(Some("Y"), Some("b"))]
    requires p == Item(Some("X"), "a", ["b"])
    ensures Allowed(t, p)
    ensures Merged(t, p).mappings == map[0 := Mapping(Some("X"), Some("a")), 1 := Mapping(Some("Y"), Some("a"))]
  {
    assert !OwnedBy(t.mappings[0], p.losers) && OwnedBy(t.mappings[1], p.losers);
    assert TriggerAllows(t.mappings, 1, "a");
    assert RepointAllowed(t.mappings, p.losers, p.keeper);
    assert StampAllowed(t.users, p.keeper, "X");
    hide RepointAllowed, StampAllowed, TriggerAllows;
  }

  lemma OneItem(t: Tables, p: Item)
    requires !Skipped(p)
    ensures MergeAll(t, [p]) == if Allowed(t, p) then (Merged(t, p), true) else (t, false)
  {
    hide Allowed, Merged;
    assert [p][..0] == [];
  }

  // --- What the database's own rules keep ---------------------------------------------------------------------

  ghost predicate LagoIdsUnique(users: map<string, User>) {
    forall u, v :: u in users && v in users && u != v && users[u].lago.Some? ==> users[u].lago != users[v].lago
  }

  /** However far the script gets, no two users share a Lago id and no Lago customer has two owners. */
  lemma {:induction false} EveryRunKeepsTheRules(t: Tables, plan: seq<Item>)
    requires LagoIdsUnique(t.users) && OneOwner(t.mappings)
    ensures LagoIdsUnique(MergeAll(t, plan).0.users) && OneOwner(MergeAll(t, plan).0.mappings)
  {
    hide Allowed, Merged, LagoIdsUnique, OneOwner;
    if plan != [] {
      var n := |plan| - 1;
      EveryRunKeepsTheRules(t, plan[..n]);
      var t' := MergeAll(t, plan[..n]).0;
      if Allowed(t', plan[n]) {
        MergeKeepsUnique(t', plan[n]);
        MergeKeepsOneOwner(t', plan[n]);
      }
    }
  }

  lemma MergeKeepsUnique(t: Tables, p: Item)
    requires Allowed(t, p) && LagoIdsUnique(t.users)
    ensures p.externalId.Some? && LagoIdsUnique(Merged(t, p).users)
  {
    hide RepointAllowed, Repointed;
  }

  lemma MergeKeepsOneOwner(t: Tables, p: Item)
    requires Allowed(t, p) && OneOwner(t.mappings)
    ensures p.externalId.Some? && OneOwner(Merged(t, p).mappings)
  {
    hide StampAllowed;
    var ms, ms' := t.mappings, Merged(t, p).mappings;
    forall i, j | i in ms' && j in ms' && ms'[i].lago.Some? && ms'[i].lago == ms'[j].lago && ms'[i].user.Some? && ms'[j].user.Some?
      ensures ms'[i].user == ms'[j].user
    {
      assert OwnedBy(ms[i], p.losers) ==> TriggerAllows(ms, i, p.keeper);
      assert OwnedBy(ms[j], p.losers) ==> TriggerAllows(ms, j, p.keeper);
    }
  }
}
