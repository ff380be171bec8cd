/**
 The server's start-up check of the permanent backend, and what a finished migration owes it.
 */
module BlobStartup {
  import opened Wrappers
  import opened BlobMigration

  /** SELECT backend, count(*) FROM file_blobs GROUP BY backend. */
  function FileBlobBackendCounts(table: Table): map<string, nat> {
    map backend | backend in Backends(table) :: |RowsOn(table, backend)|
  }

  function Backends(table: Table): set<string> {
    set loc | loc in table :: table[loc].backend
  }

  function RowsOn(table: Table, backend: string): set<string> {
    set loc | loc in table && table[loc].backend == backend
  }

  /** Accepts when no other backend has rows; otherwise reports those that do, with their counts. */
  method RequireConfiguredBlobBackend(counts: map<string, nat>, configured: string)
    returns (r: Result<(), map<string, nat>>)
    ensures r.Ok? <==> forall backend | backend in counts && counts[backend] > 0 :: backend == configured
    ensures r.Err? ==>
              r.error == map backend | backend in counts && counts[backend] > 0 && backend != configured ::
                           counts[backend]
  {
    var mismatches: map<string, nat> := map[];
    var rest := counts.Keys;
    while rest != {}
      invariant rest <= counts.Keys
      invariant mismatches ==
                map backend | backend in counts && backend !in rest && counts[backend] > 0 && backend != configured ::
                  counts[backend]
      decreases |rest|
    {
      var backend :| backend in rest;
      if counts[backend] > 0 && backend != configured {
        mismatches := mismatches[backend := counts[backend]];
      }
      rest := rest - {backend};
    }
    if |mismatches| == 0 {
      forall backend | backend in counts && counts[backend] > 0
        ensures backend == configured
      {
        assert backend !in mismatches;
      }
      return Ok(());
    }
    var witness' :| witness' in mismatches;
    return Err(mismatches);
  }

  /** Whether the server would start on this table with this backend configured. */
  ghost predicate Accepts(table: Table, configured: string) {
    var counts := FileBlobBackendCounts(table);
    forall backend | backend in counts && counts[backend] > 0 :: backend == configured
  }

  lemma AcceptsIffAllRows(table: Table, configured: string)
    ensures Accepts(table, configured) <==> forall loc | loc in table :: table[loc].backend == configured
  {
    var counts := FileBlobBackendCounts(table);
    forall loc | loc in table
      ensures table[loc].backend in counts && counts[table[loc].backend] > 0
    {
      assert loc in RowsOn(table, table[loc].backend);
    }
    forall backend | backend in counts
      ensures exists loc :: loc in table && table[loc].backend == backend
    {
    }
  }

  /** After a successful run, from whatever mixture of rows it started on, the server starts on the
      destination exactly when no row named a third backend and no source row had an empty key: the
      page query asks for keys greater than the empty string and never sees such a row. */
  lemma StartsAfterMigrationIff(table: Table, plan: Plan)
    requires plan.from != plan.to
    ensures Accepts(MovedAll(table, plan), plan.to) <==>
            forall loc | loc in table ::
              table[loc].backend == plan.to || (table[loc].backend == plan.from && table[loc].key != "")
  {
    var moved := MovedAll(table, plan);
    AcceptsIffAllRows(moved, plan.to);
    forall loc | loc in table
      ensures moved[loc].backend == plan.to <==>
              table[loc].backend == plan.to || (table[loc].backend == plan.from && table[loc].key != "")
    {
    }
    if forall loc | loc in moved :: moved[loc].backend == plan.to {
      forall loc | loc in table
        ensures table[loc].backend == plan.to || (table[loc].backend == plan.from && table[loc].key != "")
      {
        assert loc in moved;
      }
    }
  }

  /** No source row is left by a successful run exactly when none had an empty key. */
  lemma NoSourceRowLeftIff(table: Table, plan: Plan)
    requires plan.from != plan.to
    ensures KeysOn(MovedAll(table, plan), plan.from) == {} <==> "" !in KeysOn(table, plan.from)
  {
    var moved := MovedAll(table, plan);
    if k :| k in KeysOn(moved, plan.from) {
      var loc :| loc in moved && moved[loc].backend == plan.from && moved[loc].key == k;
      assert table[loc] == moved[loc] && k == "";
    }
    if "" in KeysOn(table, plan.from) {
      var loc :| loc in table && table[loc].backend == plan.from && table[loc].key == "";
      assert moved[loc] == table[loc];
      assert "" in KeysOn(moved, plan.from);
    }
  }

  /** A half-migrated table is refused whichever backend is configured, so an interrupted run can
      only be followed by another run. */
  lemma MixedTableRefused(table: Table, a: string, b: string, configured: string)
    requires a in table && b in table && table[a].backend != table[b].backend
    ensures !Accepts(table, configured)
  {
    AcceptsIffAllRows(table, configured);
  }

  /** The empty object is the exception to soundness: its read-back asks the destination for nothing,
      so a LocalFS destination that already holds other bytes under that key passes, and the row ends
      up naming an object of the wrong size. */
  lemma EmptyObjectIsNotReadBack(plan: Plan, w: World, loc: string)
    requires plan.from != plan.to && loc in w.table
    requires w.table[loc] == Row(plan.from, plan.hash.KeyOf([]), 0, plan.hash.sha([]))
    requires w.table.Keys == {loc} && plan.hash.KeyOf([]) in w.target && w.target[plan.hash.KeyOf([])] != []
    ensures var w' := w.(table := Relabel(w.table, plan, plan.hash.KeyOf([])));
            MoveStep(plan, w, w', plan.hash.KeyOf([])) && !Backed(plan.hash, w'.target, w'.table[loc])
  {
    assert loc in Locations(w.table, plan.from, plan.hash.KeyOf([]));
  }
}
