/**
 * What `ChatBot.process_uploaded_files` does to the database and to its
 * log, as functions of its inputs.
 *
 * The PDF text, the document classifier and the structured-data extractor
 * are not part of this model: each upload arrives with its classification
 * result and, per page, the extractor's result. The loop carries two
 * variables across pages and files, `doc_type` (unbound until a
 * classification succeeds) and `aux_year` (unbound until a convenio page
 * carries a "year" key); `Route` decides one page from them, and the folds
 * `RunPages` and `RunFiles` thread them through the batch.
 */
module Ingestion {
  import opened Wrappers
  import opened FactTables
  import opened WorkerId

  /** The classifier's answer: "modelo_190", "10t", "rnt", "convenio", or
      any other label (such as "idc"), which no branch handles. */
  datatype DocType = Modelo190 | TenT | Rnt | Convenio | OtherType(tag: string)

  /** The four labels the page loop handles; `OtherType` stands for any
      label but these. */
  predicate HandledLabel(tag: string) {
    tag == "modelo_190" || tag == "10t" || tag == "rnt" || tag == "convenio"
  }

  datatype Classification = Classified(docType: DocType) | ClassifyFailed(message: string)

  /** A key of the extracted dict: missing, present with `None`, or set. */
  datatype Field<T> = Absent | Null | Val(value: T)

  /** An extracted dict: the keys the loop reads, and whether it has any
      other key. */
  datatype Record = Record(
    workerName: Field<string>,
    percepcionIntegra: Field<real>,
    year: Field<int>,
    companyId: Field<string>,
    companyName: Field<string>,
    horasConvenioAnuales: Field<real>,
    otherKeys: bool)

  /** An element of an extracted list: a complete contribution row, or an
      entry whose insert raises before it reaches the table (a missing key,
      a `None` in a NOT NULL column). */
  datatype RntEntry = Entry(row: ContribRow) | BadEntry

  /** The extractor's result for a page. */
  datatype Extraction = ExtractFailed | Dict(record: Record) | List(entries: seq<RntEntry>)

  datatype Document = Document(classification: Classification, pages: seq<Extraction>)

  datatype Upload = Upload(name: string, document: Document)

  /** A call of one of the three insert methods. */
  datatype Insert =
    | InsertWorker(worker: WorkerRow)
    | InsertContribution(contrib: ContribRow)
    | InsertConvenio(convenio: ConvenioRow)

  /** A line of the returned log: a page that completed, or a file whose
      classification raised. */
  datatype LogLine = PageDone(file: string, page: nat) | Unclassified(file: string, message: string)

  /** What a page does: the inserts it issues in order, whether it reaches
      the log line when every insert succeeds, and the new `aux_year`. */
  datatype Routing = Routing(inserts: seq<Insert>, completes: bool, auxYear: Field<int>)

  /** The loop's state: the tables, `doc_type`, `aux_year` and the log. */
  datatype IngestState = IngestState(
    tables: Tables, docType: Option<DocType>, auxYear: Field<int>, log: seq<LogLine>)

  /** The preprocessor's `generar_id`, which `process_uploaded_files`
      receives with the preprocessor object; `WorkerId.GenerarId` is the
      repository's. */
  type IdFn = string -> Result<string, IdError>

  // ----- one page -----

  function Apply(t: Tables, i: Insert): Tables {
    match i
    case InsertWorker(w) => AddWorker(t, w)
    case InsertContribution(c) => AddContribution(t, c)
    case InsertConvenio(c) => AddConvenio(t, c)
  }

  function ApplyAll(t: Tables, xs: seq<Insert>): Tables {
    if xs == [] then t else Apply(ApplyAll(t, xs[..|xs| - 1]), xs[|xs| - 1])
  }

  predicate IsEmptyDict(rec: Record) {
    rec == Record(Absent, Absent, Absent, Absent, Absent, Absent, false)
  }

  /** `generar_id(structured_data.get("worker_name", ""))`; `None` where it
      raises (a `None` name has no `upper`, or `generar_id` fails). */
  function WorkerIdOf(generarId: IdFn, name: Field<string>): Option<string> {
    if name.Null? then None
    else
      var s := if name.Val? then name.value else "";
      match generarId(s)
      case Ok(id) => Some(id)
      case Err(_) => None
  }

  /** The contribution inserts of an rnt list: one per entry, in order, up
      to the first entry that raises. */
  function RntInserts(es: seq<RntEntry>): seq<Insert> {
    if es == [] then []
    else
      var init := es[..|es| - 1];
      var e := es[|es| - 1];
      if BadEntry in init || e.BadEntry? then RntInserts(init)
      else RntInserts(init) + [InsertContribution(e.row)]
  }

  /** A modelo_190 or 10t page: one worker row, keyed by the derived id,
      when every column is present and not `None`. */
  function WorkerRoute(id: string, rec: Record, aux: Field<int>): Routing {
    if rec.workerName.Val? && rec.percepcionIntegra.Val? && rec.year.Val?
       && rec.companyId.Val? && rec.companyName.Val?
    then
      var w := WorkerRow(id, rec.year.value, rec.workerName.value, rec.percepcionIntegra.value,
                         rec.companyId.value, rec.companyName.value);
      Routing([InsertWorker(w)], true, aux)
    else Routing([], false, aux)
  }

  /** A convenio page. A "year" key, even `None`, replaces `aux_year`. With
      hours and a year, that year is inserted; with hours and no year, the
      page falls back to `aux_year`: `None` skips the page, unbound raises. */
  function ConvenioRoute(rec: Record, aux: Field<int>): Routing {
    var aux' := if rec.year.Absent? then aux else rec.year;
    match rec.horasConvenioAnuales
    case Val(h) =>
      if rec.year.Val? then Routing([InsertConvenio(ConvenioRow(rec.year.value, h))], true, aux')
      else
        (match aux'
         case Val(y) => Routing([InsertConvenio(ConvenioRow(y, h))], true, aux')
         case Null => Routing([], false, aux')
         case Absent => Routing([], false, aux'))
    case _ => Routing([], true, aux')
  }

  /** What a non-rnt page does once `generar_id` has produced `id`. */
  function Dispatch(d: DocType, id: string, rec: Record, aux: Field<int>): Routing {
    match d
    case Modelo190 => WorkerRoute(id, rec, aux)
    case TenT => WorkerRoute(id, rec, aux)
    case Convenio => ConvenioRoute(rec, aux)
    case _ => Routing([], true, aux)
  }

  /** The body of the page loop, up to its log line. */
  function Route(generarId: IdFn, docType: Option<DocType>, aux: Field<int>, x: Extraction): (r: Routing)
    ensures docType.None? || x.ExtractFailed? ==> r.inserts == [] && !r.completes && r.auxYear == aux
    ensures r.auxYear != aux ==> docType == Some(Convenio)
    ensures |r.inserts| > 1 ==> docType == Some(Rnt)
  {
    if docType.None? || x.ExtractFailed? then Routing([], false, aux)
    else if docType.value == Rnt then
      match x
      case List(es) => Routing(RntInserts(es), BadEntry !in es, aux)
      case Dict(rec) => Routing([], IsEmptyDict(rec), aux)
    else if x.List? then Routing([], false, aux)
    else
      match WorkerIdOf(generarId, x.record.workerName)
      case None => Routing([], false, aux)
      case Some(id) => Dispatch(docType.value, id, x.record, aux)
  }

  /** One page: its inserts take effect (an insert on a dropped table
      raises and ends the page), and a page that completes is logged. */
  function RunPage(generarId: IdFn, st: IngestState, name: string, k: nat, x: Extraction): (r: IngestState)
    ensures r.docType == st.docType
    ensures r.log == st.log || r.log == st.log + [PageDone(name, k)]
    ensures r.auxYear != st.auxYear ==> st.docType == Some(Convenio)
    ensures !st.tables.created ==> r.tables == st.tables
  {
    var r := Route(generarId, st.docType, st.auxYear, x);
    assert !st.tables.created ==> ApplyAll(st.tables, r.inserts) == st.tables by {
      if !st.tables.created {
        ApplyAllDropped(st.tables, r.inserts);
      }
    }
    var logged := r.completes && (st.tables.created || r.inserts == []);
    IngestState(ApplyAll(st.tables, r.inserts), st.docType, r.auxYear,
                if logged then st.log + [PageDone(name, k)] else st.log)
  }

  /** The pages of one file, numbered from 1. */
  function RunPages(generarId: IdFn, st: IngestState, name: string, pages: seq<Extraction>): IngestState {
    if pages == [] then st
    else RunPage(generarId, RunPages(generarId, st, name, pages[..|pages| - 1]), name, |pages|, pages[|pages| - 1])
  }

  /** The classification step of a file: success rebinds `doc_type`,
      failure logs a line and keeps the previous binding. */
  function Classify(st: IngestState, name: string, c: Classification): IngestState {
    match c
    case Classified(d) => st.(docType := Some(d))
    case ClassifyFailed(m) => st.(log := st.log + [Unclassified(name, m)])
  }

  function RunFile(generarId: IdFn, st: IngestState, name: string, doc: Document): IngestState {
    RunPages(generarId, Classify(st, name, doc.classification), name, doc.pages)
  }

  function RunFiles(generarId: IdFn, st: IngestState, dir: map<string, Document>, names: seq<string>): IngestState
    requires forall n :: n in names ==> n in dir
  {
    if names == [] then st
    else
      var n := names[|names| - 1];
      RunFile(generarId, RunFiles(generarId, st, dir, names[..|names| - 1]), n, dir[n])
  }

  /** The temporary directory after every upload is written to it: a later
      upload with the same name overwrites an earlier one. */
  function SavedFiles(us: seq<Upload>): (dir: map<string, Document>)
    ensures forall i :: 0 <= i < |us| ==> us[i].name in dir
  {
    if us == [] then map[]
    else SavedFiles(us[..|us| - 1])[us[|us| - 1].name := us[|us| - 1].document]
  }

  /** The saved paths, in upload order, duplicates included. */
  function Names(us: seq<Upload>): (r: seq<string>)
    ensures |r| == |us| && forall i :: 0 <= i < |us| ==> r[i] == us[i].name
  {
    if us == [] then [] else Names(us[..|us| - 1]) + [us[|us| - 1].name]
  }

  function Start(t: Tables): IngestState {
    IngestState(t, None, Absent, [])
  }

  /** `process_uploaded_files`: the tables afterwards and the returned log. */
  function Ingest(generarId: IdFn, t: Tables, us: seq<Upload>): (r: IngestState)
    ensures forall i :: 0 <= i < |r.log| ==> r.log[i].file in Names(us)
  {
    var dir := SavedFiles(us);
    var names := Names(us);
    assert forall n :: n in names ==> n in dir;
    FilesLog(generarId, Start(t), dir, names);
    RunFiles(generarId, Start(t), dir, names)
  }

  // ----- the tables only grow, and a repeated insert is absorbed -----

  /** `t2` extends `t1`: the same tables exist, and each holds `t1`'s rows
      first. */
  predicate Within(t1: Tables, t2: Tables) {
    && t1.created == t2.created && t1.cargas == t2.cargas
    && t1.workers <= t2.workers && t1.contribs <= t2.contribs && t1.convenios <= t2.convenios
  }

  /** Issuing the insert on `t` would change nothing. */
  predicate Absorbed(t: Tables, i: Insert) {
    || !t.created
    || match i
       case InsertWorker(w) => HasWorkerKey(t.workers, KeyOf(w))
       case InsertContribution(c) => c in t.contribs
       case InsertConvenio(c) => HasYear(t.convenios, c.year)
  }

  lemma ApplyOne(t: Tables, i: Insert)
    ensures ApplyAll(t, [i]) == Apply(t, i)
  {
    assert [i][..0] == [];
  }

  lemma {:induction false} WithinTrans(a: Tables, b: Tables, c: Tables)
    requires Within(a, b) && Within(b, c)
    ensures Within(a, c)
  {
    assert a.workers == b.workers[..|a.workers|] == c.workers[..|b.workers|][..|a.workers|];
    assert a.contribs == b.contribs[..|a.contribs|] == c.contribs[..|b.contribs|][..|a.contribs|];
    assert a.convenios == b.convenios[..|a.convenios|] == c.convenios[..|b.convenios|][..|a.convenios|];
  }

  lemma {:induction false} ApplyGrows(t: Tables, i: Insert)
    ensures Within(t, Apply(t, i)) && Absorbed(Apply(t, i), i)
  {
    var r := Apply(t, i);
    match i
    case InsertWorker(w) =>
      AddWorkerSpec(t, w, KeyOf(w));
      if t.created && !HasWorkerKey(t.workers, KeyOf(w)) {
        assert w in r.workers;
      }
    case InsertContribution(c) =>
      AddContributionSpec(t, c);
    case InsertConvenio(c) =>
      AddConvenioSpec(t, c, c.year);
      if t.created && !HasYear(t.convenios, c.year) {
        assert c in r.convenios;
      }
  }

  lemma {:induction false} AbsorbedStays(t1: Tables, t2: Tables, i: Insert)
    requires Absorbed(t1, i) && Within(t1, t2)
    ensures Absorbed(t2, i)
  {
    if t1.created {
      match i
      case InsertWorker(w) =>
        var v :| v in t1.workers && KeyOf(v) == KeyOf(w);
        assert v in t2.workers[..|t1.workers|];
      case InsertContribution(c) =>
        assert c in t2.contribs[..|t1.contribs|];
      case InsertConvenio(c) =>
        var v :| v in t1.convenios && v.year == c.year;
        assert v in t2.convenios[..|t1.convenios|];
    }
  }

  /** A batch of inserts leaves every earlier row in place and leaves each
      of its own inserts absorbed. */
  lemma {:induction false} ApplyAllGrows(t: Tables, xs: seq<Insert>)
    ensures Within(t, ApplyAll(t, xs))
    ensures forall i :: i in xs ==> Absorbed(ApplyAll(t, xs), i)
    ensures Valid(t) ==> Valid(ApplyAll(t, xs))
  {
    if xs != [] {
      var init := xs[..|xs| - 1];
      var last := xs[|xs| - 1];
      var a := ApplyAll(t, init);
      ApplyAllGrows(t, init);
      ApplyGrows(a, last);
      WithinTrans(t, a, Apply(a, last));
      forall i | i in xs ensures Absorbed(ApplyAll(t, xs), i) {
        if i != last {
          assert i in init;
          AbsorbedStays(a, Apply(a, last), i);
        }
      }
      if Valid(t) {
        match last
        case InsertWorker(w) => AddWorkerKeepsValid(a, w);
        case InsertContribution(c) => AddContributionKeepsValid(a, c);
        case InsertConvenio(c) => AddConvenioKeepsValid(a, c);
      }
    }
  }

  /** Inserts that are all absorbed change nothing. */
  lemma {:induction false} ApplyAllAbsorbed(t: Tables, xs: seq<Insert>)
    requires forall i :: i in xs ==> Absorbed(t, i)
    ensures ApplyAll(t, xs) == t
  {
    if xs != [] {
      ApplyAllAbsorbed(t, xs[..|xs| - 1]);
      assert xs[|xs| - 1] in xs;
    }
  }

  /** On dropped tables every insert raises, so nothing is stored. */
  lemma {:induction false} ApplyAllDropped(t: Tables, xs: seq<Insert>)
    requires !t.created
    ensures ApplyAll(t, xs) == t
  {
    ApplyAllAbsorbed(t, xs);
  }

  lemma {:induction false} RunPageGrows(generarId: IdFn, st: IngestState, name: string, k: nat, x: Extraction)
    ensures var r := RunPage(generarId, st, name, k, x);
      Within(st.tables, r.tables) && st.log <= r.log && r.docType == st.docType
      && (Valid(st.tables) ==> Valid(r.tables))
  {
    ApplyAllGrows(st.tables, Route(generarId, st.docType, st.auxYear, x).inserts);
  }

  lemma {:induction false} RunPagesGrows(generarId: IdFn, st: IngestState, name: string, ps: seq<Extraction>)
    ensures var r := RunPages(generarId, st, name, ps);
      Within(st.tables, r.tables) && st.log <= r.log && r.docType == st.docType
      && (Valid(st.tables) ==> Valid(r.tables))
  {
    if ps != [] {
      var a := RunPages(generarId, st, name, ps[..|ps| - 1]);
      RunPagesGrows(generarId, st, name, ps[..|ps| - 1]);
      RunPageGrows(generarId, a, name, |ps|, ps[|ps| - 1]);
      WithinTrans(st.tables, a.tables, RunPages(generarId, st, name, ps).tables);
    }
  }

  lemma {:induction false} RunFilesGrows(generarId: IdFn, st: IngestState, dir: map<string, Document>, names: seq<string>)
    requires forall n :: n in names ==> n in dir
    ensures var r := RunFiles(generarId, st, dir, names);
      Within(st.tables, r.tables) && st.log <= r.log
      && (Valid(st.tables) ==> Valid(r.tables))
  {
    if names != [] {
      var n := names[|names| - 1];
      var a := RunFiles(generarId, st, dir, names[..|names| - 1]);
      RunFilesGrows(generarId, st, dir, names[..|names| - 1]);
      var c := Classify(a, n, dir[n].classification);
      RunPagesGrows(generarId, c, n, dir[n].pages);
      WithinTrans(st.tables, a.tables, RunFiles(generarId, st, dir, names).tables);
    }
  }

  /** Processing a batch keeps every stored row and the table invariant,
      and only appends to the log. */
  lemma {:induction false} IngestOnlyAdds(generarId: IdFn, t: Tables, us: seq<Upload>)
    ensures Within(t, Ingest(generarId, t, us).tables)
    ensures Valid(t) ==> Valid(Ingest(generarId, t, us).tables)
  {
    RunFilesGrows(generarId, Start(t), SavedFiles(us), Names(us));
  }

  lemma {:induction false} RerunPage(generarId: IdFn, sa: IngestState, name: string, k: nat, x: Extraction, f: Tables)
    requires Within(RunPage(generarId, sa, name, k, x).tables, f)
    ensures RunPage(generarId, sa.(tables := f), name, k, x) == RunPage(generarId, sa, name, k, x).(tables := f)
  {
    var r := Route(generarId, sa.docType, sa.auxYear, x);
    var a := RunPage(generarId, sa, name, k, x);
    ApplyAllGrows(sa.tables, r.inserts);
    forall i | i in r.inserts ensures Absorbed(f, i) {
      AbsorbedStays(a.tables, f, i);
    }
    ApplyAllAbsorbed(f, r.inserts);
  }

  lemma {:induction false} RerunPages(generarId: IdFn, sa: IngestState, name: string, ps: seq<Extraction>, f: Tables)
    requires Within(RunPages(generarId, sa, name, ps).tables, f)
    ensures RunPages(generarId, sa.(tables := f), name, ps) == RunPages(generarId, sa, name, ps).(tables := f)
  {
    if ps != [] {
      var init := ps[..|ps| - 1];
      var a := RunPages(generarId, sa, name, init);
      RunPageGrows(generarId, a, name, |ps|, ps[|ps| - 1]);
      WithinTrans(a.tables, RunPages(generarId, sa, name, ps).tables, f);
      RerunPages(generarId, sa, name, init, f);
      RerunPage(generarId, a, name, |ps|, ps[|ps| - 1], f);
    }
  }

  lemma {:induction false} RerunFiles(generarId: IdFn, sa: IngestState, dir: map<string, Document>, names: seq<string>, f: Tables)
    requires forall n :: n in names ==> n in dir
    requires Within(RunFiles(generarId, sa, dir, names).tables, f)
    ensures RunFiles(generarId, sa.(tables := f), dir, names) == RunFiles(generarId, sa, dir, names).(tables := f)
  {
    if names != [] {
      var n := names[|names| - 1];
      var init := names[..|names| - 1];
      var a := RunFiles(generarId, sa, dir, init);
      var c := Classify(a, n, dir[n].classification);
      RunPagesGrows(generarId, c, n, dir[n].pages);
      WithinTrans(a.tables, RunFiles(generarId, sa, dir, names).tables, f);
      RerunFiles(generarId, sa, dir, init, f);
      assert Classify(a.(tables := f), n, dir[n].classification) == c.(tables := f);
      RerunPages(generarId, c, n, dir[n].pages, f);
    }
  }

  /** Uploading the same batch again changes no table, and yields the same
      log: every insert it repeats is ignored on conflict. */
  lemma {:induction false} IngestIdempotent(generarId: IdFn, t: Tables, us: seq<Upload>)
    ensures Ingest(generarId, Ingest(generarId, t, us).tables, us) == Ingest(generarId, t, us)
  {
    var a := Ingest(generarId, t, us);
    RerunFiles(generarId, Start(t), SavedFiles(us), Names(us), a.tables);
    assert Start(a.tables) == Start(t).(tables := a.tables);
  }

  // ----- the log -----

  /** The lines a file's pages add are its own page lines, numbered within
      the file's page count, in increasing page order. */
  lemma {:induction false} RunPagesSnoc(generarId: IdFn, st: IngestState, name: string, ps: seq<Extraction>)
    requires ps != []
    ensures var a := RunPages(generarId, st, name, ps[..|ps| - 1]);
      RunPages(generarId, st, name, ps).log ==
        if Logged(generarId, a, ps[|ps| - 1]) then a.log + [PageDone(name, |ps|)] else a.log
  {
  }

  lemma {:induction false} PagesLog(generarId: IdFn, st: IngestState, name: string, ps: seq<Extraction>)
    ensures var r := RunPages(generarId, st, name, ps);
      && st.log <= r.log
      && (forall i :: |st.log| <= i < |r.log| ==>
            r.log[i].PageDone? && r.log[i].file == name && 1 <= r.log[i].page <= |ps|)
      && (forall i, j :: |st.log| <= i < j < |r.log| ==> r.log[i].page < r.log[j].page)
  {
    if ps != [] {
      PagesLog(generarId, st, name, ps[..|ps| - 1]);
    }
  }

  /** Every line a batch adds to the log names one of its files. */
  lemma {:induction false} FilesLog(generarId: IdFn, st: IngestState, dir: map<string, Document>, names: seq<string>)
    requires forall n :: n in names ==> n in dir
    ensures var r := RunFiles(generarId, st, dir, names);
      && st.log <= r.log
      && forall i :: |st.log| <= i < |r.log| ==> r.log[i].file in names
  {
    if names != [] {
      var n := names[|names| - 1];
      var init := names[..|names| - 1];
      var a := RunFiles(generarId, st, dir, init);
      FilesLog(generarId, st, dir, init);
      var c := Classify(a, n, dir[n].classification);
      assert a.log <= c.log && forall i :: |a.log| <= i < |c.log| ==> c.log[i].file == n;
      PagesLog(generarId, c, n, dir[n].pages);
      var r := RunFiles(generarId, st, dir, names);
      forall i | |st.log| <= i < |r.log| ensures r.log[i].file in names {
        if i < |a.log| {
          assert r.log[i] == a.log[i];
          assert a.log[i].file in init;
        } else {
          assert r.log[i].file == n;
        }
      }
    }
  }

  /** Whether a page, reached in state `st`, gets its log line. */
  predicate Logged(generarId: IdFn, st: IngestState, x: Extraction) {
    var r := Route(generarId, st.docType, st.auxYear, x);
    r.completes && (st.tables.created || r.inserts == [])
  }

  /** Page `k` of a file has a line in the log exactly when it completes in
      the state the earlier pages left. */
  lemma {:induction false} PageLineIff(generarId: IdFn, st: IngestState, name: string, ps: seq<Extraction>, k: nat)
    requires 1 <= k <= |ps|
    ensures var r := RunPages(generarId, st, name, ps);
      |st.log| <= |r.log| &&
      (PageDone(name, k) in r.log[|st.log|..] <==> Logged(generarId, RunPages(generarId, st, name, ps[..k - 1]), ps[k - 1]))
  {
    var init := ps[..|ps| - 1];
    var a := RunPages(generarId, st, name, init);
    var r := RunPages(generarId, st, name, ps);
    RunPagesSnoc(generarId, st, name, ps);
    PagesLog(generarId, st, name, init);
    var b := Logged(generarId, a, ps[|ps| - 1]);
    if k == |ps| {
      assert init == ps[..k - 1];
      LastLine(st.log, a.log, b, name, k);
    } else {
      PageLineIff(generarId, st, name, init, k);
      assert init[..k - 1] == ps[..k - 1];
      EarlierLine(st.log, a.log, b, name, |ps|, k);
    }
  }

  /** The line a page adds is new to the file's lines. */
  lemma {:induction false} LastLine(pre: seq<LogLine>, a: seq<LogLine>, b: bool, name: string, n: nat)
    requires pre <= a
    requires forall i :: |pre| <= i < |a| ==> a[i].PageDone? && a[i].page < n
    ensures var r := if b then a + [PageDone(name, n)] else a;
      |pre| <= |r| && (PageDone(name, n) in r[|pre|..] <==> b)
  {
    var r := if b then a + [PageDone(name, n)] else a;
    if b {
      assert r[|pre|..][|r| - 1 - |pre|] == PageDone(name, n);
    } else {
      forall i | 0 <= i < |r[|pre|..]| ensures r[|pre|..][i] != PageDone(name, n) {
        assert r[|pre|..][i] == a[|pre| + i];
      }
    }
  }

  /** A later page's line does not change whether an earlier one is there. */
  lemma {:induction false} EarlierLine(pre: seq<LogLine>, a: seq<LogLine>, b: bool, name: string, n: nat, k: nat)
    requires pre <= a && k < n
    ensures var r := if b then a + [PageDone(name, n)] else a;
      |pre| <= |r| && (PageDone(name, k) in r[|pre|..] <==> PageDone(name, k) in a[|pre|..])
  {
    if b {
      assert (a + [PageDone(name, n)])[|pre|..] == a[|pre|..] + [PageDone(name, n)];
    }
  }


  // ----- classification -----

  /** Without a bound `doc_type` every page raises: nothing is stored and
      nothing is logged. */
  lemma {:induction false} UnboundDocTypePages(generarId: IdFn, st: IngestState, name: string, ps: seq<Extraction>)
    requires st.docType.None?
    ensures RunPages(generarId, st, name, ps) == st
  {
    if ps != [] {
      UnboundDocTypePages(generarId, st, name, ps[..|ps| - 1]);
    }
  }

  /** A first file whose classification raises yields its one line and
      nothing else. */
  lemma {:induction false} UnclassifiedFirstFile(generarId: IdFn, t: Tables, name: string, m: string, ps: seq<Extraction>)
    ensures Ingest(generarId, t, [Upload(name, Document(ClassifyFailed(m), ps))]) ==
      Start(t).(log := [Unclassified(name, m)])
  {
    var doc := Document(ClassifyFailed(m), ps);
    var us := [Upload(name, doc)];
    assert us[..0] == [];
    assert SavedFiles(us) == map[name := doc];
    assert Names(us) == [name];
    var dir := SavedFiles(us);
    assert [name][..0] == [];
    assert RunFiles(generarId, Start(t), dir, [name]) == RunFile(generarId, RunFiles(generarId, Start(t), dir, []), name, dir[name]);
    assert Classify(Start(t), name, doc.classification) == Start(t).(log := [Unclassified(name, m)]);
    UnboundDocTypePages(generarId, Start(t).(log := [Unclassified(name, m)]), name, ps);
    assert Ingest(generarId, t, us) == RunFiles(generarId, Start(t), dir, [name]);
  }

  /** The log a run of pages starts from does not change what they do; the
      lines they add follow it. */
  lemma {:induction false} LogShift(generarId: IdFn, st: IngestState, name: string, ps: seq<Extraction>, l: seq<LogLine>)
    ensures var r := RunPages(generarId, st, name, ps);
      st.log <= r.log &&
      RunPages(generarId, st.(log := l), name, ps) == r.(log := l + r.log[|st.log|..])
  {
    if ps == [] {
      assert st.log[|st.log|..] == [];
    } else {
      var init := ps[..|ps| - 1];
      var a := RunPages(generarId, st, name, init);
      LogShift(generarId, st, name, init, l);
      var la := l + a.log[|st.log|..];
      PageShift(generarId, a, name, |ps|, ps[|ps| - 1], la);
      var r := RunPages(generarId, st, name, ps);
      DropJoin(st.log, a.log, r.log, l);
    }
  }

  /** One page: the same, for a single page. */
  lemma {:induction false} PageShift(generarId: IdFn, st: IngestState, name: string, k: nat, x: Extraction, l: seq<LogLine>)
    ensures var r := RunPage(generarId, st, name, k, x);
      st.log <= r.log &&
      RunPage(generarId, st.(log := l), name, k, x) == r.(log := l + r.log[|st.log|..])
  {
    var r := RunPage(generarId, st, name, k, x);
    if r.log == st.log {
      assert r.log[|st.log|..] == [];
    } else {
      assert r.log[|st.log|..] == [PageDone(name, k)];
    }
  }

  lemma DropJoin(x: seq<LogLine>, y: seq<LogLine>, z: seq<LogLine>, l: seq<LogLine>)
    requires x <= y <= z
    ensures l + y[|x|..] + z[|y|..] == l + z[|x|..]
  {
    assert y[|x|..] + z[|y|..] == z[|x|..];
  }

  /** A file whose classification raises is processed as if it had been
      classified with the previous file's type; it only adds its line. */
  lemma {:induction false} StaleDocType(generarId: IdFn, st: IngestState, name: string, m: string, ps: seq<Extraction>, d: DocType)
    requires st.docType == Some(d)
    ensures var a := RunFile(generarId, st, name, Document(Classified(d), ps));
      st.log <= a.log &&
      RunFile(generarId, st, name, Document(ClassifyFailed(m), ps)) ==
        a.(log := st.log + [Unclassified(name, m)] + a.log[|st.log|..])
  {
    assert Classify(st, name, Classified(d)) == st;
    LogShift(generarId, st, name, ps, st.log + [Unclassified(name, m)]);
  }

  // ----- one page -----

  lemma {:induction false} RouteDict(generarId: IdFn, d: DocType, aux: Field<int>, rec: Record, id: string)
    requires d != Rnt && WorkerIdOf(generarId, rec.workerName) == Some(id)
    ensures Route(generarId, Some(d), aux, Dict(rec)) == Dispatch(d, id, rec, aux)
  {
  }

  lemma {:induction false} RouteNoId(generarId: IdFn, d: DocType, aux: Field<int>, rec: Record)
    requires d != Rnt && WorkerIdOf(generarId, rec.workerName).None?
    ensures Route(generarId, Some(d), aux, Dict(rec)) == Routing([], false, aux)
  {
  }

  lemma {:induction false} WorkerIdOfVal(generarId: IdFn, s: string, id: string)
    requires WorkerIdOf(generarId, Val(s)) == Some(id)
    ensures generarId(s) == Ok(id)
  {
  }

  /** The state after a page that completes with the single insert `i`. */
  lemma {:induction false} OneInsert(st: IngestState, name: string, k: nat, i: Insert)
    ensures IngestState(ApplyAll(st.tables, [i]), st.docType, st.auxYear,
                        if st.tables.created then st.log + [PageDone(name, k)] else st.log) ==
      st.(tables := Apply(st.tables, i),
          log := if st.tables.created then st.log + [PageDone(name, k)] else st.log)
  {
    ApplyOne(st.tables, i);
  }

  lemma {:induction false} RunPageRoute(generarId: IdFn, st: IngestState, name: string, k: nat, x: Extraction, r: Routing)
    requires Route(generarId, st.docType, st.auxYear, x) == r
    ensures RunPage(generarId, st, name, k, x) ==
      IngestState(ApplyAll(st.tables, r.inserts), st.docType, r.auxYear,
                  if r.completes && (st.tables.created || r.inserts == []) then st.log + [PageDone(name, k)] else st.log)
  {
  }

  /** A page whose extraction raises changes nothing. */
  lemma FailedExtraction(generarId: IdFn, st: IngestState, name: string, k: nat)
    ensures RunPage(generarId, st, name, k, ExtractFailed) == st
  {
  }

  /** A modelo_190 or 10t page with every column set stores one worker row
      keyed by `generar_id` of its name, and is logged. */
  lemma {:induction false} WorkerPage(generarId: IdFn, st: IngestState, name: string, k: nat, rec: Record, id: string)
    requires st.docType == Some(Modelo190) || st.docType == Some(TenT)
    requires rec.workerName.Val? && rec.percepcionIntegra.Val? && rec.year.Val?
    requires rec.companyId.Val? && rec.companyName.Val?
    requires WorkerIdOf(generarId, rec.workerName) == Some(id)
    ensures var w := WorkerRow(id, rec.year.value, rec.workerName.value, rec.percepcionIntegra.value,
                               rec.companyId.value, rec.companyName.value);
      && generarId(rec.workerName.value) == Ok(id)
      && RunPage(generarId, st, name, k, Dict(rec)) ==
           st.(tables := AddWorker(st.tables, w),
               log := if st.tables.created then st.log + [PageDone(name, k)] else st.log)
  {
    WorkerIdOfVal(generarId, rec.workerName.value, id);
    RouteDict(generarId, st.docType.value, st.auxYear, rec, id);
    WorkerPageRouted(generarId, st, name, k, rec, id);
  }

  lemma {:induction false} WorkerPageRouted(generarId: IdFn, st: IngestState, name: string, k: nat, rec: Record, id: string)
    requires st.docType == Some(Modelo190) || st.docType == Some(TenT)
    requires rec.workerName.Val? && rec.percepcionIntegra.Val? && rec.year.Val?
    requires rec.companyId.Val? && rec.companyName.Val?
    requires Route(generarId, st.docType, st.auxYear, Dict(rec)) == Dispatch(st.docType.value, id, rec, st.auxYear)
    ensures var w := WorkerRow(id, rec.year.value, rec.workerName.value, rec.percepcionIntegra.value,
                               rec.companyId.value, rec.companyName.value);
      RunPage(generarId, st, name, k, Dict(rec)) ==
        st.(tables := AddWorker(st.tables, w),
            log := if st.tables.created then st.log + [PageDone(name, k)] else st.log)
  {
    var w := WorkerRow(id, rec.year.value, rec.workerName.value, rec.percepcionIntegra.value,
                       rec.companyId.value, rec.companyName.value);
    var r := Routing([InsertWorker(w)], true, st.auxYear);
    assert Dispatch(st.docType.value, id, rec, st.auxYear) == r;
    RunPageRoute(generarId, st, name, k, Dict(rec), r);
    OneInsert(st, name, k, InsertWorker(w));
  }

  /** A modelo_190 or 10t page missing a column, or with one set to `None`,
      or whose name `generar_id` rejects, changes nothing. */
  lemma {:induction false} WorkerPageFails(generarId: IdFn, st: IngestState, name: string, k: nat, rec: Record)
    requires st.docType == Some(Modelo190) || st.docType == Some(TenT)
    requires || !(rec.workerName.Val? && rec.percepcionIntegra.Val? && rec.year.Val?
                  && rec.companyId.Val? && rec.companyName.Val?)
             || WorkerIdOf(generarId, rec.workerName).None?
    ensures RunPage(generarId, st, name, k, Dict(rec)) == st
  {
    if WorkerIdOf(generarId, rec.workerName).None? {
      RouteNoId(generarId, st.docType.value, st.auxYear, rec);
    } else {
      var id := WorkerIdOf(generarId, rec.workerName).value;
      RouteDict(generarId, st.docType.value, st.auxYear, rec, id);
      assert Dispatch(st.docType.value, id, rec, st.auxYear) == Routing([], false, st.auxYear);
    }
    RunPageRoute(generarId, st, name, k, Dict(rec), Routing([], false, st.auxYear));
  }

  /** The index of the first entry that raises, or the length. */
  function FirstBad(es: seq<RntEntry>): (n: nat)
    ensures n <= |es| && (n < |es| ==> es[n].BadEntry?)
    ensures forall j :: 0 <= j < n ==> es[j].Entry?
  {
    if es == [] then 0
    else
      var init := es[..|es| - 1];
      if BadEntry in init then FirstBad(init)
      else if es[|es| - 1].BadEntry? then |es| - 1
      else |es|
  }

  /** An rnt list issues one contribution insert per entry before the first
      one that raises, each the entry's own row in order. */
  lemma {:induction false} RntInsertsSpec(es: seq<RntEntry>)
    ensures var n := FirstBad(es);
      |RntInserts(es)| == n &&
      forall j :: 0 <= j < n ==> RntInserts(es)[j] == InsertContribution(es[j].row)
  {
    if es != [] {
      var init := es[..|es| - 1];
      RntInsertsSpec(init);
    }
  }

  lemma {:induction false} RntInsertsAll(es: seq<RntEntry>)
    requires BadEntry !in es
    ensures |RntInserts(es)| == |es|
  {
    RntInsertsSpec(es);
  }

  /** An rnt page stores its entries' rows up to the first that raises; the
      stored rows persist even when a later entry raises. It is logged
      exactly when no entry raises and, if it inserts anything, the table
      exists. It does not touch `aux_year`. */
  lemma {:induction false} RntPage(generarId: IdFn, st: IngestState, name: string, k: nat, es: seq<RntEntry>)
    requires st.docType == Some(Rnt)
    ensures var r := RunPage(generarId, st, name, k, List(es));
      && r.tables == ApplyAll(st.tables, RntInserts(es))
      && r.auxYear == st.auxYear
      && (r.log == st.log + [PageDone(name, k)] <==>
            BadEntry !in es && (st.tables.created || es == []))
      && (r.log == st.log || r.log == st.log + [PageDone(name, k)])
  {
    assert Route(generarId, st.docType, st.auxYear, List(es)) == Routing(RntInserts(es), BadEntry !in es, st.auxYear);
    if BadEntry !in es {
      RntInsertsAll(es);
    }
  }

  /** A convenio page with hours stores them under the year the page uses:
      its own "year" key when set, otherwise `aux_year`, which its own
      "year" key replaces even when `None`. If that year is `None` or was
      never bound, the page stores nothing and is not logged. */
  lemma {:induction false} ConvenioPage(generarId: IdFn, st: IngestState, name: string, k: nat, rec: Record, h: real)
    requires st.docType == Some(Convenio) && WorkerIdOf(generarId, rec.workerName).Some?
    requires rec.horasConvenioAnuales == Val(h)
    ensures var r := RunPage(generarId, st, name, k, Dict(rec));
      && r.auxYear == (if rec.year.Absent? then st.auxYear else rec.year)
      && (r.auxYear.Val? ==>
            r.tables == AddConvenio(st.tables, ConvenioRow(r.auxYear.value, h))
            && r.log == (if st.tables.created then st.log + [PageDone(name, k)] else st.log))
      && (!r.auxYear.Val? ==> r.tables == st.tables && r.log == st.log)
  {
    RouteDict(generarId, Convenio, st.auxYear, rec, WorkerIdOf(generarId, rec.workerName).value);
    ConvenioPageRouted(generarId, st, name, k, rec, h);
  }

  lemma {:induction false} ConvenioPageRouted(generarId: IdFn, st: IngestState, name: string, k: nat, rec: Record, h: real)
    requires Route(generarId, st.docType, st.auxYear, Dict(rec)) == ConvenioRoute(rec, st.auxYear)
    requires rec.horasConvenioAnuales == Val(h)
    ensures var r := RunPage(generarId, st, name, k, Dict(rec));
      && r.auxYear == (if rec.year.Absent? then st.auxYear else rec.year)
      && (r.auxYear.Val? ==>
            r.tables == AddConvenio(st.tables, ConvenioRow(r.auxYear.value, h))
            && r.log == (if st.tables.created then st.log + [PageDone(name, k)] else st.log))
      && (!r.auxYear.Val? ==> r.tables == st.tables && r.log == st.log)
  {
    var aux' := if rec.year.Absent? then st.auxYear else rec.year;
    if aux'.Val? {
      var c := ConvenioRow(aux'.value, h);
      var r := Routing([InsertConvenio(c)], true, aux');
      assert ConvenioRoute(rec, st.auxYear) == r;
      RunPageRoute(generarId, st, name, k, Dict(rec), r);
      ApplyOne(st.tables, InsertConvenio(c));
    } else {
      var r := Routing([], false, aux');
      assert ConvenioRoute(rec, st.auxYear) == r;
      RunPageRoute(generarId, st, name, k, Dict(rec), r);
    }
  }

  /** A convenio page without hours stores nothing but is logged, and its
      "year" key still replaces `aux_year`. */
  lemma {:induction false} ConvenioPageNoHours(generarId: IdFn, st: IngestState, name: string, k: nat, rec: Record)
    requires st.docType == Some(Convenio) && WorkerIdOf(generarId, rec.workerName).Some?
    requires !rec.horasConvenioAnuales.Val?
    ensures RunPage(generarId, st, name, k, Dict(rec)) ==
      st.(auxYear := if rec.year.Absent? then st.auxYear else rec.year,
          log := st.log + [PageDone(name, k)])
  {
    RouteDict(generarId, Convenio, st.auxYear, rec, WorkerIdOf(generarId, rec.workerName).value);
    ConvenioNoHoursRouted(generarId, st, name, k, rec);
  }

  lemma {:induction false} ConvenioNoHoursRouted(generarId: IdFn, st: IngestState, name: string, k: nat, rec: Record)
    requires Route(generarId, st.docType, st.auxYear, Dict(rec)) == ConvenioRoute(rec, st.auxYear)
    requires !rec.horasConvenioAnuales.Val?
    ensures RunPage(generarId, st, name, k, Dict(rec)) ==
      st.(auxYear := if rec.year.Absent? then st.auxYear else rec.year,
          log := st.log + [PageDone(name, k)])
  {
    var r := Routing([], true, if rec.year.Absent? then st.auxYear else rec.year);
    assert ConvenioRoute(rec, st.auxYear) == r;
    RunPageRoute(generarId, st, name, k, Dict(rec), r);
  }

  /** A page of any other type stores nothing and is logged, provided its
      worker name passes `generar_id`. */
  lemma {:induction false} OtherPage(generarId: IdFn, st: IngestState, name: string, k: nat, rec: Record, tag: string)
    requires st.docType == Some(OtherType(tag)) && !HandledLabel(tag)
    requires WorkerIdOf(generarId, rec.workerName).Some?
    ensures RunPage(generarId, st, name, k, Dict(rec)) == st.(log := st.log + [PageDone(name, k)])
  {
    RouteDict(generarId, OtherType(tag), st.auxYear, rec, WorkerIdOf(generarId, rec.workerName).value);
    RunPageRoute(generarId, st, name, k, Dict(rec), Routing([], true, st.auxYear));
  }

  // ----- the temporary directory -----

  /** A file uploaded twice under one name is read, both times, as the last
      upload with that name. */
  lemma {:induction false} SavedIsLast(us: seq<Upload>, i: nat)
    requires i < |us| && forall j :: i < j < |us| ==> us[j].name != us[i].name
    ensures SavedFiles(us)[us[i].name] == us[i].document
  {
    if i < |us| - 1 {
      SavedIsLast(us[..|us| - 1], i);
    }
  }
}
