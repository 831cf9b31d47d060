/**
 * `ChatBot.process_uploaded_files` as the loops it is: write the uploads
 * to a temporary directory, then walk the saved paths and, per path, the
 * pages, calling the insert methods of the `Database` object and appending
 * to the log. Each loop is proved to compute the fold `Ingestion.Ingest`.
 */
module ChatBot {
  import opened Wrappers
  import opened FactTables
  import opened Ingestion
  import opened Store

  lemma {:induction false} ApplyAllSnoc(t: Tables, xs: seq<Insert>, i: Insert)
    ensures ApplyAll(t, xs + [i]) == Apply(ApplyAll(t, xs), i)
  {
    assert (xs + [i])[..|xs|] == xs;
  }

  lemma {:induction false} RntStep(es: seq<RntEntry>, i: nat)
    requires i < |es| && BadEntry !in es[..i] && es[i].Entry?
    ensures BadEntry !in es[..i + 1]
    ensures RntInserts(es[..i + 1]) == RntInserts(es[..i]) + [InsertContribution(es[i].row)]
  {
    assert es[..i + 1][..i] == es[..i];
    assert es[..i + 1] == es[..i] + [es[i]];
  }

  /** Entries after the first one that raises issue nothing. */
  lemma {:induction false} RntStop(es: seq<RntEntry>, i: nat)
    requires i < |es| && es[i] == BadEntry
    requires BadEntry !in es[..i]
    ensures RntInserts(es) == RntInserts(es[..i])
  {
    if |es| == i + 1 {
      assert es[..|es| - 1] == es[..i];
    } else {
      var init := es[..|es| - 1];
      assert init[..i] == es[..i];
      RntStop(init, i);
      assert init[i] in init;
    }
  }

  /** A `modelo_190` or `10t` page: one `insert_worker`. */
  method ProcessWorker(db: Database, id: string, rec: Record, aux: Field<int>) returns (logged: bool)
    requires db.Valid()
    modifies db
    ensures db.Valid()
    ensures var r := WorkerRoute(id, rec, aux);
      && db.State() == ApplyAll(old(db.State()), r.inserts)
      && logged == (r.completes && (old(db.created) || r.inserts == []))
  {
    if !(rec.workerName.Val? && rec.percepcionIntegra.Val? && rec.year.Val?
         && rec.companyId.Val? && rec.companyName.Val?) {
      return false;
    }
    var w := WorkerRow(id, rec.year.value, rec.workerName.value,
                       rec.percepcionIntegra.value, rec.companyId.value, rec.companyName.value);
    ApplyOne(db.State(), InsertWorker(w));
    logged := db.InsertWorker(w);
  }

  /** An `rnt` page: one `insert_contingencias_comunes` per entry, until
      the first entry that raises. */
  method ProcessRnt(db: Database, es: seq<RntEntry>) returns (logged: bool)
    requires db.Valid()
    modifies db
    ensures db.Valid()
    ensures db.State() == ApplyAll(old(db.State()), RntInserts(es))
    ensures logged == (BadEntry !in es && (old(db.created) || RntInserts(es) == []))
  {
    var i := 0;
    while i < |es|
      invariant 0 <= i <= |es|
      invariant BadEntry !in es[..i]
      invariant db.Valid() && db.created == old(db.created)
      invariant old(db.created) || i == 0
      invariant db.State() == ApplyAll(old(db.State()), RntInserts(es[..i]))
    {
      if es[i].BadEntry? {
        RntStop(es, i);
        assert es[i] in es;
        return false;
      }
      RntStep(es, i);
      ApplyAllSnoc(old(db.State()), RntInserts(es[..i]), InsertContribution(es[i].row));
      var ok := db.InsertContingenciasComunes(es[i].row);
      if !ok {
        RntInsertsSpec(es);
        ApplyAllDropped(old(db.State()), RntInserts(es));
        return false;
      }
      i := i + 1;
    }
    assert es[..i] == es;
    return true;
  }

  /** A `convenio` page: update `aux_year`, then insert the hours under the
      page's year or, failing that, under `aux_year`. */
  method ProcessConvenio(db: Database, rec: Record, auxYear: Field<int>) returns (aux: Field<int>, logged: bool)
    requires db.Valid()
    modifies db
    ensures db.Valid()
    ensures var r := ConvenioRoute(rec, auxYear);
      && db.State() == ApplyAll(old(db.State()), r.inserts)
      && aux == r.auxYear
      && logged == (r.completes && (old(db.created) || r.inserts == []))
  {
    aux := auxYear;
    if !rec.year.Absent? {
      aux := rec.year;
    }
    if !rec.horasConvenioAnuales.Val? {
      return aux, true;
    }
    var h := rec.horasConvenioAnuales.value;
    if rec.year.Val? {
      var c := ConvenioRow(rec.year.value, h);
      ApplyOne(db.State(), InsertConvenio(c));
      logged := db.InsertConvenio(c);
      return;
    }
    if aux.Null? || aux.Absent? {
      return aux, false;
    }
    var c := ConvenioRow(aux.value, h);
    ApplyOne(db.State(), InsertConvenio(c));
    logged := db.InsertConvenio(c);
  }

  /** The body of the page loop, up to the log line: it returns the new
      `aux_year` and whether the page reached its log line. */
  method ProcessPage(generarId: IdFn, db: Database, docType: Option<DocType>, auxYear: Field<int>, x: Extraction)
    returns (aux: Field<int>, logged: bool)
    requires db.Valid()
    modifies db
    ensures db.Valid()
    ensures var r := Route(generarId, docType, auxYear, x);
      && db.State() == ApplyAll(old(db.State()), r.inserts)
      && aux == r.auxYear
      && logged == (r.completes && (old(db.created) || r.inserts == []))
  {
    aux := auxYear;
    if docType.None? || x.ExtractFailed? {
      return aux, false;
    }
    var d := docType.value;
    if d == Rnt {
      if x.Dict? {
        return aux, IsEmptyDict(x.record);
      }
      logged := ProcessRnt(db, x.entries);
      return;
    }
    if x.List? {
      return aux, false;
    }
    var id := WorkerIdOf(generarId, x.record.workerName);
    if id.None? {
      return aux, false;
    }
    if d == Modelo190 || d == TenT {
      assert Route(generarId, docType, auxYear, x) == WorkerRoute(id.value, x.record, auxYear);
      logged := ProcessWorker(db, id.value, x.record, auxYear);
    } else if d == Convenio {
      assert Route(generarId, docType, auxYear, x) == ConvenioRoute(x.record, auxYear);
      aux, logged := ProcessConvenio(db, x.record, auxYear);
    } else {
      assert Route(generarId, docType, auxYear, x) == Routing([], true, auxYear);
      logged := true;
    }
  }

  lemma {:induction false} RunPagesStep(generarId: IdFn, st: IngestState, name: string, ps: seq<Extraction>, p: nat)
    requires p < |ps|
    ensures RunPages(generarId, st, name, ps[..p + 1]) == RunPage(generarId, RunPages(generarId, st, name, ps[..p]), name, p + 1, ps[p])
  {
    assert ps[..p + 1][..p] == ps[..p];
  }

  lemma {:induction false} RunFilesStep(generarId: IdFn, st: IngestState, dir: map<string, Document>, names: seq<string>, f: nat)
    requires f < |names|
    requires forall n :: n in names ==> n in dir
    ensures forall n :: n in names[..f + 1] ==> n in dir
    ensures RunFiles(generarId, st, dir, names[..f + 1]) == RunFile(generarId, RunFiles(generarId, st, dir, names[..f]), names[f], dir[names[f]])
  {
    assert names[..f + 1][..f] == names[..f];
    assert names[..f + 1][f] == names[f];
  }

  /** Write each upload under its own name into the temporary directory;
      a later upload overwrites an earlier one of the same name. */
  method SaveUploads(uploads: seq<Upload>) returns (tempDir: map<string, Document>, savedFiles: seq<string>)
    ensures tempDir == SavedFiles(uploads) && savedFiles == Names(uploads)
    ensures forall n :: n in savedFiles ==> n in tempDir
  {
    tempDir := map[];
    savedFiles := [];
    var i := 0;
    while i < |uploads|
      invariant 0 <= i <= |uploads|
      invariant tempDir == SavedFiles(uploads[..i])
      invariant savedFiles == Names(uploads[..i])
    {
      assert uploads[..i + 1][..i] == uploads[..i];
      tempDir := tempDir[uploads[i].name := uploads[i].document];
      savedFiles := savedFiles + [uploads[i].name];
      i := i + 1;
    }
    assert uploads[..i] == uploads;
  }

  /** One saved file: classify it, then run the page loop. */
  method ProcessFile(generarId: IdFn, db: Database, docType: Option<DocType>, auxYear: Field<int>, processed: seq<LogLine>,
                     name: string, doc: Document)
    returns (docType': Option<DocType>, auxYear': Field<int>, processed': seq<LogLine>)
    requires db.Valid()
    modifies db
    ensures db.Valid()
    ensures IngestState(db.State(), docType', auxYear', processed') ==
      RunFile(generarId, IngestState(old(db.State()), docType, auxYear, processed), name, doc)
  {
    docType', auxYear', processed' := docType, auxYear, processed;
    match doc.classification {
      case Classified(d) =>
        docType' := Some(d);
      case ClassifyFailed(m) =>
        processed' := processed' + [Unclassified(name, m)];
    }
    ghost var classified := IngestState(db.State(), docType', auxYear', processed');
    var p := 0;
    while p < |doc.pages|
      invariant 0 <= p <= |doc.pages|
      invariant db.Valid()
      invariant IngestState(db.State(), docType', auxYear', processed') ==
        RunPages(generarId, classified, name, doc.pages[..p])
    {
      RunPagesStep(generarId, classified, name, doc.pages, p);
      var logged;
      auxYear', logged := ProcessPage(generarId, db, docType', auxYear', doc.pages[p]);
      if logged {
        processed' := processed' + [PageDone(name, p + 1)];
      }
      p := p + 1;
    }
    assert doc.pages[..p] == doc.pages;
  }

  /** `process_uploaded_files`: the tables afterwards and the returned log
      are those of `Ingest`. */
  method ProcessUploadedFiles(uploads: seq<Upload>, generarId: IdFn, db: Database) returns (processed: seq<LogLine>)
    requires db.Valid()
    modifies db
    ensures db.Valid()
    ensures var st := Ingest(generarId, old(db.State()), uploads);
      db.State() == st.tables && processed == st.log
  {
    var tempDir, savedFiles := SaveUploads(uploads);
    ghost var start := Start(db.State());
    var docType: Option<DocType> := None;
    var auxYear: Field<int> := Absent;
    processed := [];
    var f := 0;
    while f < |savedFiles|
      invariant 0 <= f <= |savedFiles|
      invariant db.Valid()
      invariant IngestState(db.State(), docType, auxYear, processed) ==
        RunFiles(generarId, start, tempDir, savedFiles[..f])
    {
      RunFilesStep(generarId, start, tempDir, savedFiles, f);
      docType, auxYear, processed := ProcessFile(generarId, db, docType, auxYear, processed, savedFiles[f], tempDir[savedFiles[f]]);
      f := f + 1;
    }
    assert savedFiles[..f] == savedFiles;
  }
}
