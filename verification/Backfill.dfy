/**
 The one-shot backfill that gives every ownerless mapping of a Lago customer an account: grouping,
 one transaction per customer, the dry-run rollback and the report.
*/
module Backfill {
  import opened Csv
  import opened UserMappings
  import opened Wrappers

  /** `U` stands for the users table, which only the provisioner touches. */
  datatype Tables<U> = Tables(users: U, mappings: Mappings)

  datatype Account = Account(userId: string, email: Option<string>, created: bool)

  datatype Code =
    | LagoCustomerNotFound | LagoFetchFailed | LagoEmailMissing | LagoEmailMalformed
    | EmailBelongsToAdmin | EmailLinkedToDifferentLagoCustomer

  datatype Fault = ProvisionerError(code: Code, message: string) | OtherError(message: string)

  /** What the provisioner does: an account and new users, or an error. Audit rows escape the transaction. */
  datatype Resolved<U> =
    | Found(account: Account, users: U, audit: seq<string>)
    | Rejected(fault: Fault, audit: seq<string>)

  /** The flags, the provisioner, and any other database error a customer's transaction meets. */
  datatype Job<!U> = Job(
    dryRun: bool,
    limit: Option<nat>,
    resolve: (Tables<U>, string) -> Resolved<U>,
    fault: string -> Option<string>)

  datatype Candidate = Candidate(id: nat, lago: string)

  // --- Grouping --------------------------------------------------------------------------------------

  function Ids(cs: seq<Candidate>, lago: string): seq<nat> {
    if cs == [] then []
    else
      var n := |cs| - 1;
      Ids(cs[..n], lago) + (if cs[n].lago == lago then [cs[n].id] else [])
  }

  /** The customers in the order the rows first name them, as a JavaScript Map iterates. */
  function Customers(cs: seq<Candidate>): seq<string> {
    if cs == [] then []
    else
      var n := |cs| - 1;
      var earlier := Customers(cs[..n]);
      if cs[n].lago in earlier then earlier else earlier + [cs[n].lago]
  }

  method Group(cs: seq<Candidate>) returns (order: seq<string>, lists: map<string, seq<nat>>)
    ensures order == Customers(cs)
    ensures lists.Keys == set g | g in order
    ensures forall g :: g in order ==> lists[g] == Ids(cs, g)
  {
    hide Ids, Customers;
    order, lists := [], map[];
    FirstRow([]);
    for i := 0 to |cs|
      invariant order == Customers(cs[..i])
      invariant lists.Keys == set g | g in order
      invariant forall g :: g in order ==> lists[g] == Ids(cs[..i], g)
    {
      var row := cs[i];
      assert cs[..i + 1] == cs[..i] + [row];
      NextRow(cs[..i], row);
      var list := if row.lago in lists then lists[row.lago] else [];
      if row.lago !in lists {
        NothingYet(cs[..i], row.lago);
        order := order + [row.lago];
      }
      lists := lists[row.lago := list + [row.id]];
    }
    assert cs[..|cs|] == cs;
  }

  lemma FirstRow(cs: seq<Candidate>)
    requires cs == []
    ensures Customers(cs) == []
  {
  }

  lemma NextRow(cs: seq<Candidate>, row: Candidate)
    ensures Customers(cs + [row]) == if row.lago in Customers(cs) then Customers(cs) else Customers(cs) + [row.lago]
    ensures forall g :: Ids(cs + [row], g) == if row.lago == g then Ids(cs, g) + [row.id] else Ids(cs, g)
  {
    assert (cs + [row])[..|cs|] == cs;
    forall g ensures Ids(cs + [row], g) == if row.lago == g then Ids(cs, g) + [row.id] else Ids(cs, g) {
      assert Ids(cs, g) + [] == Ids(cs, g);
    }
  }

  function IdsOfAll(cs: seq<Candidate>, gs: seq<string>): seq<nat> {
    if gs == [] then [] else IdsOfAll(cs, gs[..|gs| - 1]) + Ids(cs, gs[|gs| - 1])
  }

  function AllIds(cs: seq<Candidate>): seq<nat> {
    seq(|cs|, i requires 0 <= i < |cs| => cs[i].id)
  }

  lemma {:induction false} IdsAre(cs: seq<Candidate>, g: string, id: nat)
    ensures id in Ids(cs, g) <==> Candidate(id, g) in cs
  {
    if cs != [] {
      var n := |cs| - 1;
      IdsAre(cs[..n], g, id);
      assert cs == cs[..n] + [cs[n]];
    }
  }

  lemma {:induction false} CustomersAre(cs: seq<Candidate>)
    ensures forall i, j :: 0 <= i < j < |Customers(cs)| ==> Customers(cs)[i] != Customers(cs)[j]
    ensures forall g :: g in Customers(cs) <==> exists id :: Candidate(id, g) in cs
  {
    if cs != [] {
      var n := |cs| - 1;
      CustomersAre(cs[..n]);
      assert cs == cs[..n] + [cs[n]];
      forall g ensures g in Customers(cs) <==> exists id :: Candidate(id, g) in cs {
        if g == cs[n].lago {
          assert cs[n] == Candidate(cs[n].id, g);
        } else if exists id :: Candidate(id, g) in cs {
          var id :| Candidate(id, g) in cs;
          assert Candidate(id, g) in cs[..n];
        }
      }
    }
  }

  /** The row that first names a customer. */
  ghost predicate FirstNamed(cs: seq<Candidate>, g: string, i: int) {
    0 <= i < |cs| && cs[i].lago == g && forall j :: 0 <= j < i ==> cs[j].lago != g
  }

  /** Customers come in the order of the rows that first name them. */
  lemma {:induction false} FirstSeenOrder(cs: seq<Candidate>, a: nat, b: nat, i: int, j: int)
    requires a < b < |Customers(cs)| && FirstNamed(cs, Customers(cs)[a], i) && FirstNamed(cs, Customers(cs)[b], j)
    ensures i < j
  {
    var n := |cs| - 1;
    CustomersAre(cs);
    CustomersAre(cs[..n]);
    assert cs == cs[..n] + [cs[n]];
    if b < |Customers(cs[..n])| {
      SeenBefore(cs, Customers(cs)[a], i);
      SeenBefore(cs, Customers(cs)[b], j);
      FirstSeenOrder(cs[..n], a, b, i, j);
    } else {
      SeenBefore(cs, Customers(cs)[a], i);
      NotNamedYet(cs[..n], cs[n].lago);
      assert Customers(cs)[b] == cs[n].lago;
      assert forall l :: 0 <= l < n ==> cs[..n][l] == cs[l];
    }
  }

  lemma NotNamedYet(cs: seq<Candidate>, g: string)
    requires g !in Customers(cs)
    ensures forall l :: 0 <= l < |cs| ==> cs[l].lago != g
  {
    CustomersAre(cs);
    forall l | 0 <= l < |cs|
      ensures cs[l].lago != g
    {
      assert cs[l] == Candidate(cs[l].id, cs[l].lago);
    }
  }

  lemma SeenBefore(cs: seq<Candidate>, g: string, i: int)
    requires cs != [] && FirstNamed(cs, g, i) && g in Customers(cs[..|cs| - 1])
    ensures FirstNamed(cs[..|cs| - 1], g, i)
  {
    var n := |cs| - 1;
    CustomersAre(cs[..n]);
    var id :| Candidate(id, g) in cs[..n];
    var k :| 0 <= k < n && cs[..n][k] == Candidate(id, g);
    assert cs[k].lago == g;
  }

  /** A customer's ids come in the order of its rows. */
  lemma {:induction false} IdsInRowOrder(cs: seq<Candidate>, i: nat, j: nat) returns (a: nat, b: nat)
    requires i < j < |cs| && cs[i].lago == cs[j].lago
    ensures a < b < |Ids(cs, cs[i].lago)| && Ids(cs, cs[i].lago)[a] == cs[i].id && Ids(cs, cs[i].lago)[b] == cs[j].id
  {
    var n, g := |cs| - 1, cs[i].lago;
    if j < n {
      assert cs[..n][i] == cs[i] && cs[..n][j] == cs[j];
      a, b := IdsInRowOrder(cs[..n], i, j);
    } else {
      assert cs[..n][i] == Candidate(cs[i].id, g);
      IdsAre(cs[..n], g, cs[i].id);
      a :| 0 <= a < |Ids(cs[..n], g)| && Ids(cs[..n], g)[a] == cs[i].id;
      b := |Ids(cs[..n], g)|;
    }
  }

  /** One more row adds its id to its customer's list and to no other. */
  lemma {:induction false} OneMoreRow(cs: seq<Candidate>, c: Candidate, gs: seq<string>)
    requires forall i, j :: 0 <= i < j < |gs| ==> gs[i] != gs[j]
    ensures multiset(IdsOfAll(cs + [c], gs)) == multiset(IdsOfAll(cs, gs)) + (if c.lago in gs then multiset{c.id} else multiset{})
  {
    hide Ids, IdsOfAll;
    if gs == [] {
      NoGroups(cs);
      NoGroups(cs + [c]);
    } else {
      var n := |gs| - 1;
      var g := gs[n];
      OneMoreRow(cs, c, gs[..n]);
      NextRow(cs, c);
      assert gs == gs[..n] + [g];
      OneMoreGroup(cs, gs[..n], g);
      OneMoreGroup(cs + [c], gs[..n], g);
    }
  }

  lemma NoGroups(cs: seq<Candidate>)
    ensures IdsOfAll(cs, []) == []
  {
  }

  lemma {:induction false} NoRowsNoIds(gs: seq<string>)
    ensures IdsOfAll([], gs) == []
  {
    if gs != [] {
      NoRowsNoIds(gs[..|gs| - 1]);
    }
  }

  /** Grouping is a partition: the groups together hold every candidate row exactly once. */
  lemma {:induction false} GroupsPartition(cs: seq<Candidate>)
    ensures multiset(IdsOfAll(cs, Customers(cs))) == multiset(AllIds(cs))
  {
    hide Ids, Customers, IdsOfAll, AllIds;
    if cs == [] {
      EmptyPartition();
    } else {
      var n := |cs| - 1;
      GroupsPartition(cs[..n]);
      assert cs == cs[..n] + [cs[n]];
      PartitionStep(cs[..n], cs[n]);
    }
  }

  lemma EmptyPartition()
    ensures multiset(IdsOfAll([], Customers([]))) == multiset(AllIds([]))
  {
    NoRowsNoIds([]);
  }

  lemma PartitionStep(before: seq<Candidate>, c: Candidate)
    requires multiset(IdsOfAll(before, Customers(before))) == multiset(AllIds(before))
    ensures multiset(IdsOfAll(before + [c], Customers(before + [c]))) == multiset(AllIds(before + [c]))
  {
    hide Ids, Customers, IdsOfAll;
    var cs, earlier := before + [c], Customers(before);
    DistinctCustomers(before);
    OneMoreRow(before, c, earlier);
    NextRow(before, c);
    assert AllIds(cs) == AllIds(before) + [c.id];
    hide AllIds;
    if c.lago !in earlier {
      NothingYet(before, c.lago);
      OneMoreGroup(cs, earlier, c.lago);
      assert Ids(cs, c.lago) == [c.id];
    }
  }

  lemma DistinctCustomers(cs: seq<Candidate>)
    ensures forall i, j :: 0 <= i < j < |Customers(cs)| ==> Customers(cs)[i] != Customers(cs)[j]
  {
    CustomersAre(cs);
  }

  lemma OneMoreGroup(cs: seq<Candidate>, gs: seq<string>, g: string)
    ensures IdsOfAll(cs, gs + [g]) == IdsOfAll(cs, gs) + Ids(cs, g)
  {
    assert (gs + [g])[..|gs|] == gs;
  }

  lemma NothingYet(cs: seq<Candidate>, g: string)
    requires g !in Customers(cs)
    ensures Ids(cs, g) == []
  {
    CustomersAre(cs);
    if Ids(cs, g) != [] {
      IdsAre(cs, g, Ids(cs, g)[0]);
    }
  }

  // --- One customer's transaction ------------------------------------------------------------------------

  function Classify(code: Code): Outcome {
    match code
    case LagoEmailMissing => SkippedNoEmail
    case LagoEmailMalformed => SkippedNoEmail
    case EmailBelongsToAdmin => SkippedAdminEmail
    case EmailLinkedToDifferentLagoCustomer => SkippedLagoCollision
    case LagoCustomerNotFound => SkippedLago404
    case LagoFetchFailed => SkippedLago5xx
  }

  /** The UPDATE of every ownerless mapping of one customer. */
  function Assign(ms: Mappings, lago: string, userId: string): Mappings {
    map id | id in ms :: if ms[id] == Mapping(Some(lago), None) then Mapping(Some(lago), Some(userId)) else ms[id]
  }

  /** The consistency trigger refuses the UPDATE when the customer already has another owner. */
  predicate TriggerRefuses(ms: Mappings, lago: string, userId: string) {
    && (exists id :: id in ms && ms[id] == Mapping(Some(lago), None))
    && exists id :: id in ms && ms[id].lago == Some(lago) && ms[id].user.Some? && ms[id].user != Some(userId)
  }

  const TRIGGER_MESSAGE := "user_mappings: lago_customer_external_id already linked"

  datatype Attempt<U> = Linked(account: Account, users: U) | Failed(outcome: Outcome, note: string)

  function Try<U>(job: Job<U>, t: Tables<U>, lago: string): Attempt<U> {
    match job.resolve(t, lago)
    case Rejected(ProvisionerError(code, message), _) => Failed(Classify(code), message)
    case Rejected(OtherError(message), _) => Failed(SkippedError, message)
    case Found(account, users, _) =>
      if TriggerRefuses(t.mappings, lago, account.userId) then Failed(SkippedError, TRIGGER_MESSAGE)
      else if job.fault(lago).Some? then Failed(SkippedError, job.fault(lago).value)
      else Linked(account, users)
  }

  const DRY_RUN_NOTE := "dry-run rollback"

  function RowFor<U>(job: Job<U>, a: Attempt<U>, lago: string, id: nat): CsvRow {
    match a
    case Linked(account, _) =>
      CsvRow(id, lago, if account.email.Some? then account.email.value else "",
             if account.created then Created else LinkedExisting,
             account.userId, if job.dryRun then DRY_RUN_NOTE else "")
    case Failed(outcome, note) => CsvRow(id, lago, "", outcome, "", note)
  }

  datatype Progress<U> = Progress(tables: Tables<U>, audit: seq<string>, out: seq<CsvRow>, failures: nat)

  function Process<U>(job: Job<U>, p: Progress<U>, lago: string, ids: seq<nat>): Progress<U> {
    var a := Try(job, p.tables, lago);
    Progress(
      if a.Linked? && !job.dryRun then Tables(a.users, Assign(p.tables.mappings, lago, a.account.userId)) else p.tables,
      p.audit + job.resolve(p.tables, lago).audit,
      p.out + seq(|ids|, i requires 0 <= i < |ids| => RowFor(job, a, lago, ids[i])),
      p.failures + if a.Failed? then 1 else 0)
  }

  function ProcessAll<U>(job: Job<U>, p: Progress<U>, cs: seq<Candidate>, gs: seq<string>): Progress<U> {
    if gs == [] then p
    else var g := gs[|gs| - 1]; Process(job, ProcessAll(job, p, cs, gs[..|gs| - 1]), g, Ids(cs, g))
  }

  /** The customers a run reaches before its limit stops it: as many of the first ones as it allows. */
  function Reached<U>(job: Job<U>, order: seq<string>): (r: seq<string>)
    ensures r <= order
    ensures job.limit == None ==> |r| == |order|
    ensures job.limit.Some? ==> |r| <= job.limit.value && (|r| == job.limit.value || |r| == |order|)
  {
    if job.limit.Some? && job.limit.value < |order| then order[..job.limit.value] else order
  }

  // --- The script -----------------------------------------------------------------------------------------

  class Script<U> {
    var users: U
    var mappings: Mappings
    var audit: seq<string>
    var out: seq<CsvRow>

    constructor (users: U, mappings: Mappings)
      ensures this.users == users && this.mappings == mappings && audit == [] && out == []
    {
      this.users, this.mappings, audit, out := users, mappings, [], [];
    }

    function Now(failures: nat): Progress<U>
      reads this
    {
      Progress(Tables(users, mappings), audit, out, failures)
    }

    /** One customer: the transaction commits as a whole or not at all, and every one of its rows is reported. */
    method ProcessCustomer(job: Job<U>, lago: string, ids: seq<nat>, failures: nat) returns (failures': nat)
      modifies this
      ensures Now(failures') == Process(job, old(Now(failures)), lago, ids)
    {
      failures' := failures;
      ghost var t := Tables(users, mappings);
      ghost var a := Try(job, t, lago);
      ghost var out0 := out;
      var r := job.resolve(Tables(users, mappings), lago);
      audit := audit + r.audit;
      var error: Option<Fault> := None;
      if r.Rejected? {
        error := Some(r.fault);
      } else if TriggerRefuses(mappings, lago, r.account.userId) {
        error := Some(OtherError(TRIGGER_MESSAGE));
      } else if job.fault(lago).Some? {
        error := Some(OtherError(job.fault(lago).value));
      } else if !job.dryRun {
        mappings := Assign(mappings, lago, r.account.userId);
        users := r.users;
      }
      if error.Some? {
        failures' := failures' + 1;
      }
      for i := 0 to |ids|
        invariant out == out0 + seq(i, k requires 0 <= k < i <= |ids| => RowFor(job, a, lago, ids[k]))
        invariant audit == old(audit) + r.audit && users == Process(job, old(Now(failures)), lago, ids).tables.users
        invariant mappings == Process(job, old(Now(failures)), lago, ids).tables.mappings
      {
        if error == None {
          out := out + [CsvRow(ids[i], lago, if r.account.email.Some? then r.account.email.value else "",
                               if r.account.created then Created else LinkedExisting,
                               r.account.userId, if job.dryRun then DRY_RUN_NOTE else "")];
        } else {
          var outcome := if error.value.ProvisionerError? then Classify(error.value.code) else SkippedError;
          out := out + [CsvRow(ids[i], lago, "", outcome, "", error.value.message)];
        }
      }
    }

    /** The whole run; the exit code says whether some customer failed. */
    method Run(job: Job<U>, cs: seq<Candidate>) returns (exit: int)
      modifies this
      ensures var p := ProcessAll(job, old(Now(0)), cs, Reached(job, Customers(cs)));
              && Now(p.failures) == p
              && exit == if p.failures > 0 then 1 else 0
    {
      hide Process, Ids, Customers;
      var order, lists := Group(cs);
      var processed, failures := 0, 0;
      for i := 0 to |order|
        invariant processed == i && (job.limit.Some? ==> i <= job.limit.value)
        invariant Now(failures) == ProcessAll(job, old(Now(0)), cs, order[..i])
      {
        if job.limit.Some? && processed >= job.limit.value {
          assert Reached(job, order) == order[..i];
          break;
        }
        processed := processed + 1;
        assert order[..i + 1][..i] == order[..i];
        failures := ProcessCustomer(job, order[i], lists[order[i]], failures);
      }
      assert order[..|order|] == order;
      exit := if failures > 0 then 1 else 0;
    }
  }

  // --- What a run does ------------------------------------------------------------------------------------

  /** The rows the script's query returns, in any order. */
  ghost predicate AreCandidates(ms: Mappings, cs: seq<Candidate>) {
    && (forall c :: c in cs <==> c.id in ms && ms[c.id] == Mapping(Some(c.lago), None))
    && (forall i, j :: 0 <= i < j < |cs| ==> cs[i].id != cs[j].id)
  }

  ghost predicate Distinct(gs: seq<string>) {
    forall i, j :: 0 <= i < j < |gs| ==> gs[i] != gs[j]
  }

  /** A row of the report that says its mapping now has an owner. */
  predicate SaysLinked(r: CsvRow) {
    r.outcome == Created || r.outcome == LinkedExisting
  }

  /** A report row, its mapping's starting row and its final one agree. */
  ghost predicate TellsTruth(dryRun: bool, r: CsvRow, ms0: Mappings, ms: Mappings) {
    && r.mappingId in ms0 && r.mappingId in ms
    && ms0[r.mappingId] == Mapping(Some(r.lagoCustomerId), None)
    && ms[r.mappingId] == Mapping(Some(r.lagoCustomerId), if SaysLinked(r) && !dryRun then Some(r.userId) else None)
    && (dryRun && SaysLinked(r) ==> r.note == DRY_RUN_NOTE)
  }

  ghost predicate InGroups(m: Mapping, gs: seq<string>) {
    m.user == None && m.lago.Some? && m.lago.value in gs
  }

  ghost predicate Sound<U>(job: Job<U>, ms0: Mappings, gs: seq<string>, p: Progress<U>) {
    && p.tables.mappings.Keys == ms0.Keys
    && (forall id :: id in ms0 ==> p.tables.mappings[id].lago == ms0[id].lago)
    && (forall id :: id in ms0 && !InGroups(ms0[id], gs) ==> p.tables.mappings[id] == ms0[id])
    && (forall r :: r in p.out ==> r.lagoCustomerId in gs && TellsTruth(job.dryRun, r, ms0, p.tables.mappings))
  }

  /** After any customers have been processed the report is true of every mapping it names, and no other changed. */
  lemma {:induction false} ReportIsTrue<U>(job: Job<U>, p: Progress<U>, cs: seq<Candidate>, gs: seq<string>)
    requires AreCandidates(p.tables.mappings, cs) && Distinct(gs) && p.out == []
    ensures Sound(job, p.tables.mappings, gs, ProcessAll(job, p, cs, gs))
  {
    if gs != [] {
      var n := |gs| - 1;
      ReportIsTrue(job, p, cs, gs[..n]);
      var q := ProcessAll(job, p, cs, gs[..n]);
      assert gs[n] !in gs[..n];
      assert gs == gs[..n] + [gs[n]];
      forall id ensures id in Ids(cs, gs[n]) <==> Candidate(id, gs[n]) in cs { IdsAre(cs, gs[n], id); }
      ProcessIsSound(job, p.tables.mappings, gs[..n], q, gs[n], Ids(cs, gs[n]));
    }
  }

  lemma ProcessIsSound<U>(job: Job<U>, ms0: Mappings, gs: seq<string>, q: Progress<U>, g: string, ids: seq<nat>)
    requires Sound(job, ms0, gs, q) && g !in gs
    requires forall id :: id in ids <==> id in ms0 && ms0[id] == Mapping(Some(g), None)
    ensures Sound(job, ms0, gs + [g], Process(job, q, g, ids))
  {
    var p := Process(job, q, g, ids);
    var a := Try(job, q.tables, g);
    var ms, ms' := q.tables.mappings, p.tables.mappings;
    forall id | id in ms0 && (!InGroups(ms0[id], gs + [g]) || ms0[id].lago != Some(g))
      ensures ms'[id] == ms[id]
    {
    }
    forall r | r in p.out
      ensures r.lagoCustomerId in gs + [g] && TellsTruth(job.dryRun, r, ms0, ms')
    {
      if r in q.out {
        assert ms0[r.mappingId].lago != Some(g);
      } else {
        var i :| 0 <= i < |ids| && r == RowFor(job, a, g, ids[i]);
        assert ids[i] in ids;
        assert ms[ids[i]] == ms0[ids[i]];
        FailuresSaySo(job, q.tables, g);
      }
    }
  }

  lemma FailuresSaySo<U>(job: Job<U>, t: Tables<U>, g: string)
    ensures Try(job, t, g).Failed? ==> !(Try(job, t, g).outcome == Created || Try(job, t, g).outcome == LinkedExisting)
  {
  }

  function OutIds(out: seq<CsvRow>): seq<nat> {
    seq(|out|, i requires 0 <= i < |out| => out[i].mappingId)
  }

  /** The report has exactly one row per mapping of the processed customers, group by group. */
  lemma {:induction false} OneRowPerMapping<U>(job: Job<U>, p: Progress<U>, cs: seq<Candidate>, gs: seq<string>)
    requires p.out == []
    ensures OutIds(ProcessAll(job, p, cs, gs).out) == IdsOfAll(cs, gs)
  {
    if gs != [] {
      var n := |gs| - 1;
      OneRowPerMapping(job, p, cs, gs[..n]);
      var q := ProcessAll(job, p, cs, gs[..n]);
      var ids := Ids(cs, gs[n]);
      var out := ProcessAll(job, p, cs, gs).out;
      assert OutIds(out) == OutIds(q.out) + ids;
    }
  }

  /**
   A dry run leaves users and mappings as they were, and the audit rows as they were iff the provisioner writes
   none for any customer reached: those it writes outside the transaction are not rolled back.
  */
  lemma {:induction false} DryRunChangesNoTable<U>(job: Job<U>, p: Progress<U>, cs: seq<Candidate>, gs: seq<string>)
    requires job.dryRun
    ensures ProcessAll(job, p, cs, gs).tables == p.tables
    ensures |ProcessAll(job, p, cs, gs).audit| >= |p.audit|
    ensures ProcessAll(job, p, cs, gs).audit == p.audit <==> forall g :: g in gs ==> job.resolve(p.tables, g).audit == []
  {
    if gs != [] {
      var n := |gs| - 1;
      DryRunChangesNoTable(job, p, cs, gs[..n]);
      assert gs == gs[..n] + [gs[n]];
    }
  }

  /** One customer whose mail is an admin's: the dry run rejects it, and the row auditing that stays. */
  lemma DryRunLeavesAnAuditRow<U>(job: Job<U>, p: Progress<U>, id: nat, lago: string, message: string, row: string)
    requires job.dryRun && job.limit == None
    requires job.resolve(p.tables, lago) == Rejected(ProvisionerError(EmailBelongsToAdmin, message), [row])
    ensures var cs := [Candidate(id, lago)];
            var p' := ProcessAll(job, p, cs, Reached(job, Customers(cs)));
            && p'.tables == p.tables && p'.audit == p.audit + [row]
            && p'.out == p.out + [CsvRow(id, lago, "", SkippedAdminEmail, "", message)]
  {
    var cs := [Candidate(id, lago)];
    FirstRow(cs[..0]);
    NextRow([], Candidate(id, lago));
    assert [] + cs == cs && Customers(cs) == [lago];
    assert Ids(cs, lago) == Ids([], lago) + [id] == [id];
    assert [lago][..0] == [];
    assert ProcessAll(job, p, cs, []) == p;
  }

  /** A run never splits a customer between two owners. */
  lemma {:induction false} RunKeepsOneOwner<U>(job: Job<U>, p: Progress<U>, cs: seq<Candidate>, gs: seq<string>)
    requires OneOwner(p.tables.mappings)
    ensures OneOwner(ProcessAll(job, p, cs, gs).tables.mappings)
  {
    if gs != [] {
      RunKeepsOneOwner(job, p, cs, gs[..|gs| - 1]);
    }
  }

  /** A full applied run, and the report it left: a second run's candidates are exactly the rows not reported linked. */
  lemma SecondRunSeesTheUnresolved<U>(job: Job<U>, p: Progress<U>, cs: seq<Candidate>, cs': seq<Candidate>)
    requires AreCandidates(p.tables.mappings, cs) && p.out == [] && !job.dryRun
    requires AreCandidates(ProcessAll(job, p, cs, Reached(job, Customers(cs))).tables.mappings, cs')
    ensures var out := ProcessAll(job, p, cs, Reached(job, Customers(cs))).out;
            forall c :: c in cs' <==> c in cs && !(exists r :: r in out && r.mappingId == c.id && SaysLinked(r))
  {
    var gs := Reached(job, Customers(cs));
    var q := ProcessAll(job, p, cs, gs);
    var ms := p.tables.mappings;
    CustomersAre(cs);
    ReportIsTrue(job, p, cs, gs);
    OneRowPerMapping(job, p, cs, gs);
    forall c ensures c in cs' <==> c in cs && !(exists r :: r in q.out && r.mappingId == c.id && SaysLinked(r)) {
      if c in cs && c.lago in gs {
        IdsAre(cs, c.lago, c.id);
        MemberOfAll(cs, gs, c.lago, c.id);
        var i :| 0 <= i < |OutIds(q.out)| && OutIds(q.out)[i] == c.id;
        assert q.out[i] in q.out && q.out[i].mappingId == c.id;
        assert TellsTruth(false, q.out[i], ms, q.tables.mappings);
      }
    }
  }

  lemma {:induction false} MemberOfAll(cs: seq<Candidate>, gs: seq<string>, g: string, id: nat)
    requires g in gs && id in Ids(cs, g)
    ensures id in IdsOfAll(cs, gs)
  {
    if g != gs[|gs| - 1] {
      assert g in gs[..|gs| - 1];
      MemberOfAll(cs, gs[..|gs| - 1], g, id);
    }
  }

  /** How the transaction of the `k`-th processed customer went. */
  function AttemptAt<U>(job: Job<U>, p: Progress<U>, cs: seq<Candidate>, gs: seq<string>, k: nat): Attempt<U>
    requires k < |gs|
  {
    Try(job, ProcessAll(job, p, cs, gs[..k]).tables, gs[k])
  }

  /**
   Each customer's outcome is all or nothing: a linked one's ownerless mappings all get the one account,
   and every other mapping of any processed customer is as it was.
  */
  lemma {:induction false} CustomerOutcome<U>(job: Job<U>, p: Progress<U>, cs: seq<Candidate>, gs: seq<string>, k: nat)
    requires AreCandidates(p.tables.mappings, cs) && Distinct(gs) && p.out == [] && k < |gs|
    ensures var a, ms, ms' := AttemptAt(job, p, cs, gs, k), p.tables.mappings, ProcessAll(job, p, cs, gs).tables.mappings;
            forall id :: id in ms && ms[id].lago == Some(gs[k]) ==>
              && id in ms'
              && ms'[id] == if a.Linked? && !job.dryRun && ms[id].user == None then Mapping(Some(gs[k]), Some(a.account.userId)) else ms[id]
  {
    var n := |gs| - 1;
    ReportIsTrue(job, p, cs, gs[..n]);
    assert gs == gs[..n] + [gs[n]];
    if k < n {
      assert gs[..n][..k] == gs[..k];
      CustomerOutcome(job, p, cs, gs[..n], k);
    } else {
      assert gs[k] !in gs[..n];
    }
  }

  /** What a provisioner's refusal is called in the report. */
  ghost predicate Called(code: Code, outcome: Outcome) {
    && (code == LagoEmailMissing || code == LagoEmailMalformed ==> outcome == SkippedNoEmail)
    && (code == EmailBelongsToAdmin ==> outcome == SkippedAdminEmail)
    && (code == EmailLinkedToDifferentLagoCustomer ==> outcome == SkippedLagoCollision)
    && (code == LagoCustomerNotFound ==> outcome == SkippedLago404)
    && (code == LagoFetchFailed ==> outcome == SkippedLago5xx)
  }

  /** Every owned mapping of the customer is the account's, as the trigger demands. */
  ghost predicate NoOtherOwner(ms: Mappings, lago: string, userId: string) {
    forall id :: id in ms && ms[id].lago == Some(lago) && ms[id].user.Some? ==> ms[id].user == Some(userId)
  }

  /** A row of a customer whose transaction went through, by what the provisioner returned. */
  ghost predicate TellsAccount(dryRun: bool, r: CsvRow, account: Account) {
    && (r.outcome == Created <==> account.created) && (r.outcome == LinkedExisting <==> !account.created)
    && r.userId == account.userId
    && (account.email.Some? ==> r.lagoEmail == account.email.value) && (account.email == None ==> r.lagoEmail == "")
    && r.note == (if dryRun then "dry-run rollback" else "")
  }

  /** A row of a customer whose transaction did not. */
  ghost predicate TellsFault(r: CsvRow, message: string) {
    r.userId == "" && r.lagoEmail == "" && r.note == message
  }

  /**
   What the report says of a customer. Its transaction goes through iff the provisioner finds an account, no mapping
   of the customer has another owner and no other fault comes up; each of the six refusals has its own name.
  */
  lemma ReportedOutcome<U>(job: Job<U>, p: Progress<U>, cs: seq<Candidate>, gs: seq<string>, k: nat, r: CsvRow)
    requires AreCandidates(p.tables.mappings, cs) && Distinct(gs) && p.out == [] && k < |gs|
    requires r in ProcessAll(job, p, cs, gs).out && r.lagoCustomerId == gs[k]
    ensures match job.resolve(ProcessAll(job, p, cs, gs[..k]).tables, gs[k])
            case Rejected(ProvisionerError(code, message), _) => TellsFault(r, message) && Called(code, r.outcome)
            case Rejected(OtherError(message), _) => TellsFault(r, message) && r.outcome == SkippedError
            case Found(account, _, _) =>
              if NoOtherOwner(p.tables.mappings, gs[k], account.userId) && job.fault(gs[k]) == None
              then TellsAccount(job.dryRun, r, account)
              else
                && r.outcome == SkippedError && r.userId == "" && r.lagoEmail == ""
                && (NoOtherOwner(p.tables.mappings, gs[k], account.userId) ==> r.note == job.fault(gs[k]).value)
  {
    var t, a := ProcessAll(job, p, cs, gs[..k]).tables, AttemptAt(job, p, cs, gs, k);
    RowsOfCustomer(job, p, cs, gs, k, r);
    OwnersAtTurn(job, p, cs, gs, k, r);
    hide ProcessAll, AreCandidates;
  }

  /** A row of the report comes from its own customer's attempt. */
  lemma {:induction false} RowsOfCustomer<U>(job: Job<U>, p: Progress<U>, cs: seq<Candidate>, gs: seq<string>, k: nat, r: CsvRow)
    requires Distinct(gs) && p.out == [] && k < |gs|
    requires r in ProcessAll(job, p, cs, gs).out && r.lagoCustomerId == gs[k]
    ensures r == RowFor(job, AttemptAt(job, p, cs, gs, k), gs[k], r.mappingId) && Candidate(r.mappingId, gs[k]) in cs
  {
    var n := |gs| - 1;
    var q := ProcessAll(job, p, cs, gs[..n]);
    assert ProcessAll(job, p, cs, gs) == Process(job, q, gs[n], Ids(cs, gs[n]));
    hide Process, RowFor, Try, Ids;
    if r in q.out {
      RowsNameProcessed(job, p, cs, gs[..n], r);
      assert gs[k] in gs[..n] && k < n;
      assert gs[..n][..k] == gs[..k];
      RowsOfCustomer(job, p, cs, gs[..n], k, r);
    } else {
      ProcessedRows(job, q, gs[n], Ids(cs, gs[n]), r);
      assert gs[n] == gs[k] && k == n;
      IdsAre(cs, gs[n], r.mappingId);
    }
  }

  lemma ProcessedRows<U>(job: Job<U>, q: Progress<U>, g: string, ids: seq<nat>, r: CsvRow)
    requires r in Process(job, q, g, ids).out && r !in q.out
    ensures r.mappingId in ids && r.lagoCustomerId == g && r == RowFor(job, Try(job, q.tables, g), g, r.mappingId)
  {
    hide Try;
    var i :| 0 <= i < |ids| && r == RowFor(job, Try(job, q.tables, g), g, ids[i]);
  }

  lemma {:induction false} RowsNameProcessed<U>(job: Job<U>, p: Progress<U>, cs: seq<Candidate>, gs: seq<string>, r: CsvRow)
    requires p.out == [] && r in ProcessAll(job, p, cs, gs).out
    ensures r.lagoCustomerId in gs
  {
    var n := |gs| - 1;
    if gs != [] && r in ProcessAll(job, p, cs, gs[..n]).out {
      RowsNameProcessed(job, p, cs, gs[..n], r);
    }
  }

  /** At its turn a customer's mappings are as they were at the start. */
  lemma OwnersAtTurn<U>(job: Job<U>, p: Progress<U>, cs: seq<Candidate>, gs: seq<string>, k: nat, r: CsvRow)
    requires AreCandidates(p.tables.mappings, cs) && Distinct(gs) && p.out == [] && k < |gs|
    requires Candidate(r.mappingId, gs[k]) in cs
    ensures var ms := ProcessAll(job, p, cs, gs[..k]).tables.mappings;
            forall userId :: TriggerRefuses(ms, gs[k], userId) <==> !NoOtherOwner(p.tables.mappings, gs[k], userId)
  {
    ReportIsTrue(job, p, cs, gs[..k]);
    hide ProcessAll;
    var ms0, ms := p.tables.mappings, ProcessAll(job, p, cs, gs[..k]).tables.mappings;
    assert gs[k] !in gs[..k];
    forall id | id in ms0 && ms0[id].lago == Some(gs[k])
      ensures ms[id] == ms0[id]
    {
      assert !InGroups(ms0[id], gs[..k]);
    }
    assert ms0[r.mappingId] == Mapping(Some(gs[k]), None);
  }

  /** The exit code is 1 exactly when some processed customer's transaction failed. */
  lemma {:induction false} FailuresCounted<U>(job: Job<U>, p: Progress<U>, cs: seq<Candidate>, gs: seq<string>)
    requires p.failures == 0
    ensures ProcessAll(job, p, cs, gs).failures > 0 <==> exists k :: 0 <= k < |gs| && AttemptAt(job, p, cs, gs, k).Failed?
  {
    if gs != [] {
      var n := |gs| - 1;
      var q := ProcessAll(job, p, cs, gs[..n]);
      FailuresCounted(job, p, cs, gs[..n]);
      assert AttemptAt(job, p, cs, gs, n) == Try(job, q.tables, gs[n]);
      forall k | 0 <= k < n ensures AttemptAt(job, p, cs, gs, k) == AttemptAt(job, p, cs, gs[..n], k) {
        assert gs[..n][..k] == gs[..k];
      }
    }
  }
}
