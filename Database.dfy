/**
 * The `Database` object: its four tables are fields that the write
 * statements update in place. Each method is specified by the matching
 * transformer of `FactTables` and keeps the table invariant. A statement on
 * a dropped table raises in PostgreSQL; the insert methods report that as
 * `ok == false` and change nothing.
 */
module Store {
  import opened FactTables

  class Database {
    var created: bool
    var workers: seq<WorkerRow>
    var contribs: seq<ContribRow>
    var convenios: seq<ConvenioRow>
    var cargas: seq<Carga>

    function State(): Tables
      reads this
    {
      Tables(created, workers, contribs, convenios, cargas)
    }

    predicate Valid()
      reads this
    {
      FactTables.Valid(State())
    }

    /** A database server that holds none of the tables yet. */
    constructor ()
      ensures State() == Dropped && Valid()
    {
      created := false;
      workers := [];
      contribs := [];
      convenios := [];
      cargas := [];
    }

    /** `clean_database`: drop all four tables. */
    method CleanDatabase()
      modifies this
      ensures State() == Dropped && Valid()
    {
      created := false;
      workers := [];
      contribs := [];
      convenios := [];
      cargas := [];
    }

    /** `create_tables`: create the missing tables and seed the charges. */
    method CreateTables()
      requires Valid()
      modifies this
      ensures State() == FactTables.CreateTables(old(State()))
      ensures Valid() && created
      ensures workers == old(workers) && contribs == old(contribs) && convenios == old(convenios)
    {
      ghost var t := State();
      CreateTablesKeepsRows(t);
      if !created {
        workers := [];
        contribs := [];
        convenios := [];
        cargas := [];
        created := true;
      }
      cargas := AddCargas(cargas, Seeds());
      assert State() == FactTables.CreateTables(t);
    }

    /** `insert_worker`. */
    method InsertWorker(w: WorkerRow) returns (ok: bool)
      requires Valid()
      modifies this
      ensures ok == old(created)
      ensures State() == AddWorker(old(State()), w)
      ensures Valid()
    {
      AddWorkerKeepsValid(State(), w);
      if !created {
        return false;
      }
      if !HasWorkerKey(workers, KeyOf(w)) {
        workers := workers + [w];
      }
      return true;
    }

    /** `insert_contingencias_comunes`. */
    method InsertContingenciasComunes(c: ContribRow) returns (ok: bool)
      requires Valid()
      modifies this
      ensures ok == old(created)
      ensures State() == AddContribution(old(State()), c)
      ensures Valid()
    {
      AddContributionKeepsValid(State(), c);
      if !created {
        return false;
      }
      if c !in contribs {
        contribs := contribs + [c];
      }
      return true;
    }

    /** `insert_convenio`. */
    method InsertConvenio(c: ConvenioRow) returns (ok: bool)
      requires Valid()
      modifies this
      ensures ok == old(created)
      ensures State() == AddConvenio(old(State()), c)
      ensures Valid()
    {
      AddConvenioKeepsValid(State(), c);
      if !created {
        return false;
      }
      if !HasYear(convenios, c.year) {
        convenios := convenios + [c];
      }
      return true;
    }
  }
}
