/**
 * The four tables of the cost database as values, and what each write
 * statement does to them. `workers`, `contingencias_comunes` and `convenio`
 * are insert-or-ignore on a unique key; `cargas_sociales` holds a fixed
 * seed. `created` records whether the tables exist: `clean_database` drops
 * them all, and until `create_tables` runs again every statement on them
 * raises.
 */
module FactTables {
  import opened Wrappers

  /** A row of `workers`: one income statement of a worker at a company. */
  datatype WorkerRow = WorkerRow(
    workerId: string, year: int, workerName: string,
    percepcionIntegra: real, companyId: string, companyName: string)

  /** A row of `contingencias_comunes`: one contribution-base entry. */
  datatype ContribRow = ContribRow(
    workerId: string, year: int, base: real, diasCotizados: int,
    periodo: string, companyId: string, companyName: string)

  /** A row of `convenio`: the agreed annual hours of a year. */
  datatype ConvenioRow = ConvenioRow(year: int, horas: real)

  /** A row of `cargas_sociales`: a social-charge percentage. */
  datatype Carga = Carga(concepto: string, porcentaje: real)

  /** The unique key of `workers`. */
  datatype WorkerKey = WorkerKey(workerId: string, companyId: string, year: int)

  datatype Tables = Tables(
    created: bool,
    workers: seq<WorkerRow>,
    contribs: seq<ContribRow>,
    convenios: seq<ConvenioRow>,
    cargas: seq<Carga>)

  function KeyOf(w: WorkerRow): WorkerKey {
    WorkerKey(w.workerId, w.companyId, w.year)
  }

  predicate HasWorkerKey(ws: seq<WorkerRow>, k: WorkerKey) {
    exists w :: w in ws && KeyOf(w) == k
  }

  predicate HasYear(cs: seq<ConvenioRow>, y: int) {
    exists c :: c in cs && c.year == y
  }

  predicate HasConcepto(cs: seq<Carga>, concepto: string) {
    exists g :: g in cs && g.concepto == concepto
  }

  /** No tables at all: the state `clean_database` leaves. */
  const Dropped := Tables(false, [], [], [], [])

  /** The four social-charge rows `create_tables` seeds. */
  function Seeds(): seq<Carga> {
    [ Carga("Contingencias comunes", 23.60),
      Carga("Formación profesional + Desempleo", 5.50),
      Carga("FOGASA", 0.80),
      Carga("ÍT", 1.50) ]
  }

  function SumPct(cs: seq<Carga>): real {
    if cs == [] then 0.0 else cs[0].porcentaje + SumPct(cs[1..])
  }

  /** The table invariant: the unique keys are unique, dropped tables hold
      nothing and existing ones hold exactly the seeded charges. */
  predicate Valid(t: Tables) {
    && (!t.created ==> t.workers == [] && t.contribs == [] && t.convenios == [] && t.cargas == [])
    && (t.created ==> t.cargas == Seeds())
    && (forall i, j :: 0 <= i < j < |t.workers| ==> KeyOf(t.workers[i]) != KeyOf(t.workers[j]))
    && (forall i, j :: 0 <= i < j < |t.contribs| ==> t.contribs[i] != t.contribs[j])
    && (forall i, j :: 0 <= i < j < |t.convenios| ==> t.convenios[i].year != t.convenios[j].year)
  }

  // ----- the write statements -----

  /** `INSERT INTO workers … ON CONFLICT (worker_id, company_id, year) DO NOTHING`. */
  function AddWorker(t: Tables, w: WorkerRow): (r: Tables)
    ensures !t.created ==> r == t
    ensures t.created ==> HasWorkerKey(r.workers, KeyOf(w))
    ensures t.workers <= r.workers && |r.workers| <= |t.workers| + 1
    ensures r.(workers := t.workers) == t
  {
    if t.created && !HasWorkerKey(t.workers, KeyOf(w)) then t.(workers := t.workers + [w]) else t
  }

  /** `INSERT INTO contingencias_comunes … ON CONFLICT (all seven columns) DO NOTHING`. */
  function AddContribution(t: Tables, c: ContribRow): (r: Tables)
    ensures !t.created ==> r == t
    ensures t.created ==> c in r.contribs
    ensures t.contribs <= r.contribs && |r.contribs| <= |t.contribs| + 1
    ensures r.(contribs := t.contribs) == t
  {
    if t.created && c !in t.contribs then t.(contribs := t.contribs + [c]) else t
  }

  /** `INSERT INTO convenio … ON CONFLICT (year) DO NOTHING`. */
  function AddConvenio(t: Tables, c: ConvenioRow): (r: Tables)
    ensures !t.created ==> r == t
    ensures t.created ==> HasYear(r.convenios, c.year)
    ensures t.convenios <= r.convenios && |r.convenios| <= |t.convenios| + 1
    ensures r.(convenios := t.convenios) == t
  {
    if t.created && !HasYear(t.convenios, c.year) then t.(convenios := t.convenios + [c]) else t
  }

  /** A multi-row `INSERT INTO cargas_sociales … ON CONFLICT (concepto) DO NOTHING`. */
  function AddCargas(cs: seq<Carga>, news: seq<Carga>): (r: seq<Carga>)
    ensures cs <= r
    decreases news
  {
    if news == [] then cs
    else
      var cs' := if HasConcepto(cs, news[0].concepto) then cs else cs + [news[0]];
      AddCargas(cs', news[1..])
  }

  /** `create_tables`: create whatever is missing, then seed the charges. */
  function CreateTables(t: Tables): (r: Tables)
    ensures r.created
    ensures t.created ==> r.(cargas := t.cargas) == t && t.cargas <= r.cargas
    ensures !t.created ==> r.workers == [] && r.contribs == [] && r.convenios == []
  {
    var u := if t.created then t else Tables(true, [], [], [], []);
    u.(cargas := AddCargas(u.cargas, Seeds()))
  }

  // ----- reading a key back -----

  /** The row stored under a `workers` key. */
  function WorkerAt(ws: seq<WorkerRow>, k: WorkerKey): (r: Option<WorkerRow>)
    ensures r.Some? ==> r.value in ws && KeyOf(r.value) == k
  {
    if ws == [] then None
    else if KeyOf(ws[0]) == k then Some(ws[0])
    else WorkerAt(ws[1..], k)
  }

  /** The hours stored for a year. */
  function HoursOf(cs: seq<ConvenioRow>, y: int): (r: Option<real>)
    ensures r.Some? ==> ConvenioRow(y, r.value) in cs
  {
    if cs == [] then None
    else if cs[0].year == y then Some(cs[0].horas)
    else HoursOf(cs[1..], y)
  }

  lemma {:induction false} WorkerAtFound(ws: seq<WorkerRow>, k: WorkerKey)
    ensures WorkerAt(ws, k).Some? <==> HasWorkerKey(ws, k)
  {
    if ws != [] && KeyOf(ws[0]) != k {
      WorkerAtFound(ws[1..], k);
      assert forall w :: w in ws && w != ws[0] ==> w in ws[1..];
    }
  }

  lemma {:induction false} WorkerAtAppend(ws: seq<WorkerRow>, w: WorkerRow, k: WorkerKey)
    ensures WorkerAt(ws + [w], k) ==
      if WorkerAt(ws, k).None? && KeyOf(w) == k then Some(w) else WorkerAt(ws, k)
  {
    if ws != [] {
      assert (ws + [w])[1..] == ws[1..] + [w];
      WorkerAtAppend(ws[1..], w, k);
    }
  }

  lemma {:induction false} HoursOfFound(cs: seq<ConvenioRow>, y: int)
    ensures HoursOf(cs, y).Some? <==> HasYear(cs, y)
  {
    if cs != [] && cs[0].year != y {
      HoursOfFound(cs[1..], y);
      assert forall c :: c in cs && c != cs[0] ==> c in cs[1..];
    }
  }

  lemma {:induction false} HoursOfAppend(cs: seq<ConvenioRow>, c: ConvenioRow, y: int)
    ensures HoursOf(cs + [c], y) ==
      if HoursOf(cs, y).None? && c.year == y then Some(c.horas) else HoursOf(cs, y)
  {
    if cs != [] {
      assert (cs + [c])[1..] == cs[1..] + [c];
      HoursOfAppend(cs[1..], c, y);
    }
  }

  // ----- properties of each statement -----

  /** `insert_worker`: the first row written under a key wins; any other
      key reads back as before; at most one row is added, at the end; no
      other table changes. */
  lemma {:induction false} AddWorkerSpec(t: Tables, w: WorkerRow, k: WorkerKey)
    ensures var r := AddWorker(t, w);
      && WorkerAt(r.workers, k) ==
           (if t.created && k == KeyOf(w) && WorkerAt(t.workers, k).None? then Some(w)
            else WorkerAt(t.workers, k))
      && r.workers[..|t.workers|] == t.workers
      && |r.workers| == |t.workers| + (if t.created && !HasWorkerKey(t.workers, KeyOf(w)) then 1 else 0)
      && r.(workers := t.workers) == t
  {
    WorkerAtFound(t.workers, KeyOf(w));
    if t.created && !HasWorkerKey(t.workers, KeyOf(w)) {
      WorkerAtAppend(t.workers, w, k);
      assert (t.workers + [w])[..|t.workers|] == t.workers;
    }
  }

  lemma {:induction false} AddWorkerKeepsValid(t: Tables, w: WorkerRow)
    requires Valid(t)
    ensures Valid(AddWorker(t, w))
  {
    var r := AddWorker(t, w);
    if r != t {
      forall i, j | 0 <= i < j < |r.workers| ensures KeyOf(r.workers[i]) != KeyOf(r.workers[j]) {
        if j == |t.workers| {
          assert r.workers[i] in t.workers;
        }
      }
    }
  }

  /** `insert_contingencias_comunes`: a row equal to a stored one on all
      seven columns changes nothing; any other row is kept beside the
      existing ones. */
  lemma {:induction false} AddContributionSpec(t: Tables, c: ContribRow)
    ensures var r := AddContribution(t, c);
      && (forall x :: x in r.contribs <==> x in t.contribs || (t.created && x == c))
      && r.contribs[..|t.contribs|] == t.contribs
      && |r.contribs| == |t.contribs| + (if t.created && c !in t.contribs then 1 else 0)
      && r.(contribs := t.contribs) == t
  {
    var r := AddContribution(t, c);
    if t.created && c !in t.contribs {
      assert r.contribs[..|t.contribs|] == t.contribs;
    }
  }

  lemma {:induction false} AddContributionKeepsValid(t: Tables, c: ContribRow)
    requires Valid(t)
    ensures Valid(AddContribution(t, c))
  {
    var r := AddContribution(t, c);
    if r != t {
      forall i, j | 0 <= i < j < |r.contribs| ensures r.contribs[i] != r.contribs[j] {
        if j == |t.contribs| {
          assert r.contribs[i] in t.contribs;
        }
      }
    }
  }

  /** `insert_convenio`: a year keeps the hours first written for it. */
  lemma {:induction false} AddConvenioSpec(t: Tables, c: ConvenioRow, y: int)
    ensures var r := AddConvenio(t, c);
      && HoursOf(r.convenios, y) ==
           (if t.created && y == c.year && HoursOf(t.convenios, y).None? then Some(c.horas)
            else HoursOf(t.convenios, y))
      && r.convenios[..|t.convenios|] == t.convenios
      && r.(convenios := t.convenios) == t
  {
    HoursOfFound(t.convenios, c.year);
    if t.created && !HasYear(t.convenios, c.year) {
      HoursOfAppend(t.convenios, c, y);
      assert (t.convenios + [c])[..|t.convenios|] == t.convenios;
    }
  }

  lemma {:induction false} AddConvenioKeepsValid(t: Tables, c: ConvenioRow)
    requires Valid(t)
    ensures Valid(AddConvenio(t, c))
  {
    var r := AddConvenio(t, c);
    if r != t {
      forall i, j | 0 <= i < j < |r.convenios| ensures r.convenios[i].year != r.convenios[j].year {
        if j == |t.convenios| {
          assert r.convenios[i] in t.convenios;
        }
      }
    }
  }

  // ----- seeding and reset -----

  /** The seed is four charges with distinct names, 31.40 per cent in all. */
  lemma SeedsFacts()
    ensures |Seeds()| == 4
    ensures forall i, j :: 0 <= i < j < |Seeds()| ==> Seeds()[i].concepto != Seeds()[j].concepto
    ensures SumPct(Seeds()) == 31.40
  {
    var s := Seeds();
    assert s[1..][1..][1..][1..] == [];
    assert s[0].concepto[0] != s[1].concepto[0];
    assert s[1].concepto[1] != s[2].concepto[1];
  }

  lemma {:induction false} AddCargasKeepsPresent(cs: seq<Carga>, news: seq<Carga>)
    requires forall g :: g in news ==> HasConcepto(cs, g.concepto)
    ensures AddCargas(cs, news) == cs
  {
    if news != [] {
      AddCargasKeepsPresent(cs, news[1..]);
    }
  }

  lemma SeedsIntoNothing()
    ensures AddCargas([], Seeds()) == Seeds()
  {
    SeedsFacts();
    AddCargasFresh([], Seeds());
  }

  /** Charges with new, distinct names are all appended, in order. */
  lemma {:induction false} AddCargasFresh(cs: seq<Carga>, news: seq<Carga>)
    requires forall i, j :: 0 <= i < j < |news| ==> news[i].concepto != news[j].concepto
    requires forall i :: 0 <= i < |news| ==> !HasConcepto(cs, news[i].concepto)
    ensures AddCargas(cs, news) == cs + news
    decreases news
  {
    if news != [] {
      var cs' := cs + [news[0]];
      forall i | 0 <= i < |news[1..]| ensures !HasConcepto(cs', news[1..][i].concepto) {
        assert news[1..][i] == news[i + 1];
        LacksConceptoSnoc(cs, news[0], news[i + 1].concepto);
      }
      AddCargasFresh(cs', news[1..]);
      assert cs' + news[1..] == cs + news;
    }
  }

  /** After the multi-row insert every name it carried is stored, whether
      by this statement or before it. */
  lemma {:induction false} AddCargasCovers(cs: seq<Carga>, news: seq<Carga>)
    ensures forall i :: 0 <= i < |news| ==> HasConcepto(AddCargas(cs, news), news[i].concepto)
    decreases news
  {
    if news != [] {
      var cs' := if HasConcepto(cs, news[0].concepto) then cs else cs + [news[0]];
      var r := AddCargas(cs', news[1..]);
      AddCargasCovers(cs', news[1..]);
      forall i | 0 <= i < |news| ensures HasConcepto(r, news[i].concepto) {
        if i == 0 {
          var g :| g in cs' && g.concepto == news[0].concepto;
          assert g in r;
        } else {
          assert news[i] == news[1..][i - 1];
        }
      }
    }
  }

  /** Whatever the state, `create_tables` leaves every seed charge's name
      stored. */
  lemma CreateTablesSeeded(t: Tables)
    ensures forall i :: 0 <= i < |Seeds()| ==> HasConcepto(CreateTables(t).cargas, Seeds()[i].concepto)
  {
    var u := if t.created then t else Tables(true, [], [], [], []);
    AddCargasCovers(u.cargas, Seeds());
  }

  lemma LacksConceptoSnoc(cs: seq<Carga>, g: Carga, concepto: string)
    requires !HasConcepto(cs, concepto) && g.concepto != concepto
    ensures !HasConcepto(cs + [g], concepto)
  {
    assert forall x :: x in cs + [g] ==> x in cs || x == g;
  }

  /** Running `create_tables` again changes nothing. */
  lemma {:induction false} CreateTablesRerun(t: Tables)
    requires Valid(t) && t.created
    ensures CreateTables(t) == t
  {
    AddCargasKeepsPresent(Seeds(), Seeds());
  }

  /** On any state `create_tables` leaves every stored row in place and
      yields valid tables. */
  lemma {:induction false} CreateTablesKeepsRows(t: Tables)
    requires Valid(t)
    ensures var r := CreateTables(t);
      r.created && Valid(r) && r.workers == t.workers && r.contribs == t.contribs
      && r.convenios == t.convenios
  {
    if t.created {
      CreateTablesRerun(t);
    } else {
      SeedsIntoNothing();
      SeedsFacts();
    }
  }

  /** `clean_database` followed by `create_tables`: the four seeds are the
      only rows anywhere. */
  lemma CleanThenCreate()
    ensures CreateTables(Dropped) == Tables(true, [], [], [], Seeds())
    ensures Valid(CreateTables(Dropped))
  {
    CreateTablesKeepsRows(Dropped);
    SeedsIntoNothing();
  }
}
