/**
 Replacing a table in a database without transactions: rows are ingested into a staging table that
 is then exchanged with the target. Any statement may fail, before or after it took effect.
 */
module StagedReplace {
  import opened Grid

  type Tables<T> = map<string, seq<T>>

  datatype Statement =
    | DropIfExists(name: string)
    | Drop(name: string)
    | Create(name: string)
    | CreateIfNotExists(name: string)
    | Exchange(name: string, other: string)

  predicate Runs<T>(s: Statement, tables: Tables<T>) {
    match s
    case DropIfExists(_) => true
    case Drop(name) => name in tables
    case Create(name) => name !in tables
    case CreateIfNotExists(_) => true
    case Exchange(a, b) => a in tables && b in tables
  }

  function Apply<T>(s: Statement, tables: Tables<T>): Tables<T>
    requires Runs(s, tables)
  {
    match s
    case DropIfExists(name) => tables - {name}
    case Drop(name) => tables - {name}
    case Create(name) => tables[name := []]
    case CreateIfNotExists(name) => if name in tables then tables else tables[name := []]
    case Exchange(a, b) => tables[a := tables[b]][b := tables[a]]
  }

  datatype Mode = CreateMode | AppendMode | ReplaceMode | CreateAppendMode

  /** The statements around an ingest, for a driver that can only append. */
  datatype IngestPlan = IngestPlan(table: string, before: seq<Statement>, after: seq<Statement>,
                                   onFailure: seq<Statement>)

  function StagingName(table: string): (staging: string)
    ensures staging != table
  {
    var staging := table + "__xarray_sql_replace";
    assert |staging| > |table|;
    staging
  }

  function PlanFor(table: string, mode: Mode, temporary: bool): IngestPlan {
    if mode == AppendMode then IngestPlan(table, [], [], [])
    else if mode == ReplaceMode && !temporary then
      var staging := StagingName(table);
      IngestPlan(
        staging,
        [DropIfExists(staging), Create(staging)],
        [CreateIfNotExists(table), Exchange(table, staging), Drop(staging)],
        [DropIfExists(staging)])
    else
      var create := if mode == CreateAppendMode then CreateIfNotExists(table) else Create(table);
      IngestPlan(table, (if mode == ReplaceMode then [DropIfExists(table)] else []) + [create], [], [])
  }

  /** How a step goes wrong: not at all, without taking effect, or with its effect but reported as failed. */
  datatype Fault = NoFault | LostBefore | LostAfter

  /** Two states that differ at most in the staging table. */
  ghost predicate SameOutside<T>(a: Tables<T>, b: Tables<T>, staging: string) {
    a - {staging} == b - {staging}
  }

  /**
   The target holds the whole old or the whole new rows (a target that did not exist may also be
   empty), and no other table but the staging one has changed.
   */
  ghost predicate Whole<T>(s: Tables<T>, start: Tables<T>, table: string, rows: seq<T>) {
    && (if table in start then table in s && (s[table] == start[table] || s[table] == rows)
        else table !in s || s[table] == [] || s[table] == rows)
    && s - {table, StagingName(table)} == start - {table, StagingName(table)}
  }

  /** The tables after the first `k` statements, if they run. */
  function After<T>(statements: seq<Statement>, tables: Tables<T>, k: nat): (r: (bool, Tables<T>))
    requires k <= |statements|
  {
    if k == 0 then (true, tables)
    else
      var (ok, t) := After(statements, tables, k - 1);
      if ok && Runs(statements[k - 1], t) then (true, Apply(statements[k - 1], t)) else (false, t)
  }

  ghost predicate Reached<T>(statements: seq<Statement>, start: Tables<T>, state: Tables<T>) {
    exists k :: 0 <= k <= |statements| && After(statements, start, k) == (true, state)
  }

  /** How far a plan got: its preparation failed, the ingest failed, or the rows were all there. */
  datatype Stage = Unprepared | Broken | Filled

  /** A state a plan passes through, given the tables when the ingest began and when it ended. */
  ghost predicate Passes<T>(plan: IngestPlan, stage: Stage, start: Tables<T>, created: Tables<T>, ended: Tables<T>,
                            s: Tables<T>)
  {
    || Reached(plan.before, start, s)
    || (stage != Unprepared && SameOutside(s, created, plan.table))
    || (stage == Broken && Reached(plan.onFailure, ended, s))
    || (stage == Filled && Reached(plan.after, ended, s))
  }

  class Connection<T> {
    var tables: Tables<T>
    /** What happens to the coming steps; steps beyond the end do not fail. */
    var faults: seq<Fault>
    /** Every state the database has been in. */
    ghost var history: seq<Tables<T>>

    constructor (tables: Tables<T>, faults: seq<Fault>)
      ensures this.tables == tables && this.faults == faults && history == [tables]
    {
      this.tables := tables;
      this.faults := faults;
      this.history := [tables];
    }

    method NextFault() returns (fault: Fault)
      modifies this`faults
      ensures old(faults) == [] ==> fault == NoFault && faults == []
    {
      if faults == [] {
        return NoFault;
      }
      fault, faults := faults[0], faults[1..];
    }

    /** One statement: it runs, or raises leaving the tables as they were or as it makes them. */
    method Execute(s: Statement) returns (ok: bool)
      modifies this
      ensures |history| == |old(history)| + 1 && history[..|old(history)|] == old(history)
      ensures history[|old(history)|] == tables
      ensures ok ==> Runs(s, old(tables)) && tables == Apply(s, old(tables))
      ensures !ok ==> tables == old(tables) || (Runs(s, old(tables)) && tables == Apply(s, old(tables)))
      ensures old(faults) == [] ==> faults == [] && ok == Runs(s, old(tables))
    {
      var fault := NextFault();
      ok := fault == NoFault && Runs(s, tables);
      if fault != LostBefore && Runs(s, tables) {
        tables := Apply(s, tables);
      }
      history := history + [tables];
    }

    /** One batch appended to a table. */
    method Append(table: string, batch: seq<T>) returns (ok: bool)
      modifies this
      ensures |history| == |old(history)| + 1 && history[..|old(history)|] == old(history)
      ensures history[|old(history)|] == tables
      ensures ok ==> table in old(tables) && tables == old(tables)[table := old(tables)[table] + batch]
      ensures !ok ==>
                tables == old(tables)
                || (table in old(tables) && tables == old(tables)[table := old(tables)[table] + batch])
      ensures old(faults) == [] ==> faults == [] && ok == (table in old(tables))
    {
      var fault := NextFault();
      ok := fault == NoFault && table in tables;
      if fault != LostBefore && table in tables {
        tables := tables[table := tables[table] + batch];
      }
      history := history + [tables];
    }

    /** The driver's bulk ingest: it fails without the table, and then appends batch after batch until one fails. */
    method IngestBatches(table: string, batches: seq<seq<T>>) returns (ok: bool)
      modifies this
      ensures |old(history)| <= |history| && history[..|old(history)|] == old(history)
      ensures forall k :: |old(history)| <= k < |history| ==> SameOutside(history[k], old(tables), table)
      ensures SameOutside(tables, old(tables), table)
      ensures ok ==> table in old(tables) && tables == old(tables)[table := old(tables)[table] + Flatten(batches)]
      ensures old(faults) == [] ==> faults == [] && (ok <==> table in old(tables))
    {
      ghost var start, mark := tables, |history|;
      if table !in tables {
        return false;
      }
      for i := 0 to |batches|
        invariant mark <= |history| && history[..mark] == old(history)
        invariant forall k :: mark <= k < |history| ==> SameOutside(history[k], start, table)
        invariant SameOutside(tables, start, table)
        invariant table in tables && tables[table] == start[table] + Flatten(batches[..i])
        invariant old(faults) == [] ==> faults == []
      {
        assert batches[..i + 1][..i] == batches[..i];
        ok := Append(table, batches[i]);
        if !ok {
          return false;
        }
      }
      assert batches[..|batches|] == batches;
      Rebuilt(start, tables, table);
      return true;
    }

    /** Statements in order, stopping at the first that fails. */
    method ExecuteAll(statements: seq<Statement>) returns (ok: bool)
      modifies this
      ensures |old(history)| <= |history| && history[..|old(history)|] == old(history)
      ensures forall k :: |old(history)| <= k < |history| ==> Reached(statements, old(tables), history[k])
      ensures Reached(statements, old(tables), tables)
      ensures ok ==> After(statements, old(tables), |statements|) == (true, tables)
      ensures old(faults) == [] ==> faults == [] && ok == After(statements, old(tables), |statements|).0
    {
      ghost var start, mark := tables, |history|;
      assert After(statements, start, 0) == (true, start);
      for i := 0 to |statements|
        invariant mark <= |history| && history[..mark] == old(history)
        invariant forall k :: mark <= k < |history| ==> Reached(statements, start, history[k])
        invariant After(statements, start, i) == (true, tables)
        invariant old(faults) == [] ==> faults == []
      {
        ok := Execute(statements[i]);
        assert Runs(statements[i], After(statements, start, i).1) ==>
          After(statements, start, i + 1) == (true, Apply(statements[i], After(statements, start, i).1));
        if !ok {
          NeverAgain(statements, start, i);
          return false;
        }
      }
      return true;
    }

    /** Carries out a plan: prepare, ingest, then finish or clean up. */
    method Carry(plan: IngestPlan, batches: seq<seq<T>>)
      returns (ok: bool, ghost stage: Stage, ghost created: Tables<T>, ghost ended: Tables<T>)
      modifies this
      ensures |old(history)| <= |history| && history[..|old(history)|] == old(history)
      ensures forall k :: |old(history)| <= k < |history| ==>
                Passes(plan, stage, old(tables), created, ended, history[k])
      ensures stage != Unprepared ==>
                && After(plan.before, old(tables), |plan.before|) == (true, created)
                && SameOutside(ended, created, plan.table)
      ensures stage == Filled ==>
                plan.table in created && ended == created[plan.table := created[plan.table] + Flatten(batches)]
      ensures ok ==> stage == Filled && After(plan.after, ended, |plan.after|) == (true, tables)
      ensures old(faults) == [] && After(plan.before, old(tables), |plan.before|).0 ==>
                && stage != Unprepared && (stage == Filled <==> plan.table in created)
                && (stage == Filled ==> ok == After(plan.after, ended, |plan.after|).0)
    {
      stage, created, ended := Unprepared, tables, tables;
      ok := ExecuteAll(plan.before);
      if !ok {
        return;
      }
      created := tables;
      ok := IngestBatches(plan.table, batches);
      ended := tables;
      if !ok {
        stage := Broken;
        var cleaned := ExecuteAll(plan.onFailure);
        return;
      }
      stage := Filled;
      ok := ExecuteAll(plan.after);
    }

    /**
     Ingests rows into a table. What each mode asks of the table and leaves in it is `Permitted` and
     `Ingested`. However it ends, a replaced table is at every moment whole, and without faults the
     ingest succeeds exactly when its mode permits it, whatever an earlier attempt left behind.
     */
    method Ingest(table: string, batches: seq<seq<T>>, mode: Mode, temporary: bool) returns (ok: bool)
      modifies this
      ensures |old(history)| <= |history| && history[..|old(history)|] == old(history)
      ensures mode == ReplaceMode && !temporary ==>
                forall k :: |old(history)| <= k < |history| ==> Whole(history[k], old(tables), table, Flatten(batches))
      ensures ok ==>
                && Permitted(old(tables), table, mode)
                && Ingested(tables, old(tables), table, mode, temporary, Flatten(batches))
      ensures old(faults) == [] ==> (ok <==> Permitted(old(tables), table, mode))
    {
      ghost var stage, created, ended;
      ok, stage, created, ended := Carry(PlanFor(table, mode, temporary), batches);
      if mode == ReplaceMode && !temporary {
        StagedIsWhole(old(tables), table, batches, stage, created, ended);
      } else {
        Prepared(old(tables), table, mode, temporary);
      }
    }
  }

  /** What a mode asks of the tables: creating needs the name free, appending needs the table. */
  predicate Permitted<T>(start: Tables<T>, table: string, mode: Mode) {
    match mode
    case CreateMode => table !in start
    case AppendMode => table in start
    case ReplaceMode => true
    case CreateAppendMode => true
  }

  /**
   What a finished ingest leaves: the table holds these rows, and no other table has changed but a
   used staging one.
   */
  ghost predicate Ingested<T>(end: Tables<T>, start: Tables<T>, table: string, mode: Mode, temporary: bool,
                              rows: seq<T>)
  {
    && table in end
    && end[table] == (if mode in {CreateMode, ReplaceMode} || table !in start then rows else start[table] + rows)
    && (forall other :: other != table && other in end ==> other in start && end[other] == start[other])
    && (forall other :: other != table && other in start ==>
          other in end || (other == StagingName(table) && mode == ReplaceMode && !temporary))
  }

  /** Without staging, the statements before the ingest make the table that the mode needs. */
  lemma Prepared<T>(start: Tables<T>, table: string, mode: Mode, temporary: bool)
    requires mode != ReplaceMode || temporary
    ensures var plan := PlanFor(table, mode, temporary);
            && plan.table == table && plan.after == []
            && After(plan.before, start, |plan.before|).0 == (mode == CreateMode ==> table !in start)
            && (After(plan.before, start, |plan.before|).0 ==>
                  After(plan.before, start, |plan.before|).1 ==
                    if mode == AppendMode || (mode == CreateAppendMode && table in start) then start
                    else start[table := []])
  {
    var before := PlanFor(table, mode, temporary).before;
    assert After(before, start, 0) == (true, start);
    if mode == ReplaceMode {
      assert After(before, start, 1) == (true, start - {table});
      assert (start - {table})[table := []] == start[table := []];
    }
  }

  /** Every state that a staged replacement passes through is whole, and it ends with the new rows. */
  lemma StagedIsWhole<T>(start: Tables<T>, table: string, batches: seq<seq<T>>, stage: Stage,
                         created: Tables<T>, ended: Tables<T>)
    requires var plan := PlanFor(table, ReplaceMode, false);
             && (stage != Unprepared ==>
                   && After(plan.before, start, |plan.before|) == (true, created)
                   && SameOutside(ended, created, plan.table))
             && (stage == Filled ==>
                   plan.table in created && ended == created[plan.table := created[plan.table] + Flatten(batches)])
    ensures var plan := PlanFor(table, ReplaceMode, false);
            forall s :: Passes(plan, stage, start, created, ended, s) ==> Whole(s, start, table, Flatten(batches))
    ensures var plan := PlanFor(table, ReplaceMode, false);
            && After(plan.before, start, |plan.before|).0
            && (stage != Unprepared ==> plan.table in created)
            && (stage == Filled ==>
                  After(plan.after, ended, |plan.after|)
                    == (true, (start - {StagingName(table)})[table := Flatten(batches)]))
  {
    var rows := Flatten(batches);
    BeforeIsWhole(start, table, rows);
    if stage != Unprepared {
      IngestIsWhole(start, created, table, rows);
      SameOutsideStart(start, created, ended, StagingName(table));
      if stage == Broken {
        CleanIsWhole(start, ended, table, rows);
      } else {
        FilledStaging(start, created, ended, StagingName(table), rows);
        AfterIsWhole(start, ended, table, rows);
      }
    }
  }

  lemma SameOutsideStart<T>(start: Tables<T>, created: Tables<T>, ended: Tables<T>, staging: string)
    requires created == (start - {staging})[staging := []] && SameOutside(ended, created, staging)
    ensures SameOutside(ended, start, staging)
  {
    assert created - {staging} == start - {staging};
  }

  lemma FilledStaging<T>(start: Tables<T>, created: Tables<T>, filled: Tables<T>, staging: string, rows: seq<T>)
    requires created == (start - {staging})[staging := []]
    requires filled == created[staging := created[staging] + rows]
    ensures filled == (start - {staging})[staging := rows]
  {
    assert created[staging] + rows == rows;
  }

  lemma Rebuilt<T>(start: Tables<T>, t: Tables<T>, table: string)
    requires SameOutside(t, start, table) && table in t && table in start
    ensures t == start[table := t[table]]
  {
    forall k | k in t || k in start ensures k in t && k in start && (k != table ==> t[k] == start[k]) {
      if k != table {
        assert k in t - {table} <==> k in start - {table};
        assert k in t ==> (t - {table})[k] == t[k];
      }
    }
  }

  lemma {:induction false} NeverAgain<T>(statements: seq<Statement>, start: Tables<T>, i: nat)
    requires i < |statements|
    ensures !After(statements, start, i + 1).0 ==> !After(statements, start, |statements|).0
  {
    if !After(statements, start, i + 1).0 {
      var k := i + 1;
      while k < |statements|
        invariant i < k <= |statements| && !After(statements, start, k).0
      {
        k := k + 1;
      }
    }
  }

  lemma OutsideIsWhole<T>(start: Tables<T>, s: Tables<T>, table: string, rows: seq<T>)
    requires SameOutside(s, start, StagingName(table))
    ensures Whole(s, start, table, rows)
  {
    var staging := StagingName(table);
    assert table in s <==> table in s - {staging};
    assert table in start <==> table in start - {staging};
    if table in s { assert (s - {staging})[table] == s[table] && (start - {staging})[table] == start[table]; }
    assert s - {table, staging} == (s - {staging}) - {table};
    assert start - {table, staging} == (start - {staging}) - {table};
  }

  /** Preparing the staging table leaves every other table alone. */
  lemma BeforeIsWhole<T>(start: Tables<T>, table: string, rows: seq<T>)
    ensures forall s :: Reached(PlanFor(table, ReplaceMode, false).before, start, s) ==> Whole(s, start, table, rows)
    ensures After(PlanFor(table, ReplaceMode, false).before, start, 2)
         == (true, (start - {StagingName(table)})[StagingName(table) := []])
  {
    var staging := StagingName(table);
    var before := PlanFor(table, ReplaceMode, false).before;
    assert After(before, start, 1) == (true, start - {staging});
    forall s | Reached(before, start, s) ensures Whole(s, start, table, rows) {
      var k :| 0 <= k <= |before| && After(before, start, k) == (true, s);
      assert SameOutside(s, start, staging);
      OutsideIsWhole(start, s, table, rows);
    }
  }

  lemma IngestIsWhole<T>(start: Tables<T>, created: Tables<T>, table: string, rows: seq<T>)
    requires created == (start - {StagingName(table)})[StagingName(table) := []]
    ensures forall s :: SameOutside(s, created, StagingName(table)) ==> Whole(s, start, table, rows)
  {
    var staging := StagingName(table);
    assert created - {staging} == start - {staging};
    forall s | SameOutside(s, created, staging) ensures Whole(s, start, table, rows) {
      OutsideIsWhole(start, s, table, rows);
    }
  }

  lemma CleanIsWhole<T>(start: Tables<T>, broken: Tables<T>, table: string, rows: seq<T>)
    requires SameOutside(broken, start, StagingName(table))
    ensures forall s :: Reached(PlanFor(table, ReplaceMode, false).onFailure, broken, s) ==>
              Whole(s, start, table, rows)
  {
    var staging := StagingName(table);
    var cleanup := PlanFor(table, ReplaceMode, false).onFailure;
    forall s | Reached(cleanup, broken, s) ensures Whole(s, start, table, rows) {
      var k :| 0 <= k <= |cleanup| && After(cleanup, broken, k) == (true, s);
      assert After(cleanup, broken, 0) == (true, broken) && After(cleanup, broken, 1) == (true, broken - {staging});
      assert SameOutside(s, start, staging);
      OutsideIsWhole(start, s, table, rows);
    }
  }

  /** The exchange takes the target from the old rows to the new ones in one step. */
  lemma AfterIsWhole<T>(start: Tables<T>, filled: Tables<T>, table: string, rows: seq<T>)
    requires filled == (start - {StagingName(table)})[StagingName(table) := rows]
    ensures forall s :: Reached(PlanFor(table, ReplaceMode, false).after, filled, s) ==> Whole(s, start, table, rows)
    ensures After(PlanFor(table, ReplaceMode, false).after, filled, 3)
         == (true, (start - {StagingName(table)})[table := rows])
  {
    var staging := StagingName(table);
    var after := PlanFor(table, ReplaceMode, false).after;
    var kept := if table in filled then filled else filled[table := []];
    assert After(after, filled, 1) == (true, kept);
    var swapped := kept[table := rows][staging := kept[table]];
    assert After(after, filled, 2) == (true, swapped);
    assert After(after, filled, 3) == (true, swapped - {staging});
    assert swapped - {staging} == (start - {staging})[table := rows];
    forall s | Reached(after, filled, s) ensures Whole(s, start, table, rows) {
      var k :| 0 <= k <= |after| && After(after, filled, k) == (true, s);
      assert s in {filled, kept, swapped, swapped - {staging}};
    }
  }

  /** A temporary table cannot be exchanged: replacing it passes through a state without it. */
  lemma TemporaryIsNotWhole<T>(start: Tables<T>, table: string, rows: seq<T>)
    requires table in start
    ensures After(PlanFor(table, ReplaceMode, true).before, start, 1) == (true, start - {table})
    ensures !Whole(start - {table}, start, table, rows)
  {
    assert After(PlanFor(table, ReplaceMode, true).before, start, 0) == (true, start);
  }
}
