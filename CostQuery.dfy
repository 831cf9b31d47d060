/**
 * The two read-only queries of the cost database: `get_workers_data`, the
 * hourly-cost aggregation, and `get_all_workers`, which adds the raw
 * workers and the contribution bases per period.
 *
 * In `get_workers_data` every `workers` row joins exactly one row of each
 * joined relation or none: `porcentaje_cte` is an aggregate without GROUP BY
 * (always one row), `convenio` is unique on `year`, and
 * `contingencias_comunes_cte` is grouped by (worker_id, year). So each
 * group's `max(...)` is that single joined value, or NULL when the LEFT
 * JOIN found nothing. Rows come out in first-appearance order of their
 * group; SQL leaves the order unspecified.
 */
module CostQuery {
  import opened Wrappers
  import opened FactTables

  /** The GROUP BY key of `get_workers_data`. */
  datatype GroupKey = GroupKey(workerId: string, year: int, workerName: string)

  /** One output row of `get_workers_data`; `None` is SQL NULL. */
  datatype CostRow = CostRow(
    workerId: string, year: int, workerName: string,
    percepcionIntegra: real,
    baseContingenciasComunes: Option<real>,
    porcentaje: Option<real>,
    horasConvenioAnuales: Option<real>,
    costeHora: Option<real>)

  /** What the queries raise: a dropped table, or a zero divisor. */
  datatype QueryError = UndefinedTable | DivisionByZero

  /** One row of the period grouping in `get_all_workers`. */
  datatype PeriodSum = PeriodSum(workerId: string, periodo: string, base: real)

  datatype PeriodKey = PeriodKey(workerId: string, periodo: string)

  /** What `get_all_workers` returns. */
  datatype AllWorkersData = AllWorkersData(
    trabajadores: seq<WorkerRow>,
    contingenciasComunes: seq<PeriodSum>,
    costeHora: seq<CostRow>)

  function GroupOf(w: WorkerRow): GroupKey {
    GroupKey(w.workerId, w.year, w.workerName)
  }

  function KeyOfRow(r: CostRow): GroupKey {
    GroupKey(r.workerId, r.year, r.workerName)
  }

  function PeriodOf(c: ContribRow): PeriodKey {
    PeriodKey(c.workerId, c.periodo)
  }

  /** The elements of `xs` without repeats, in order of first appearance. */
  function Distinct<T(==,!new)>(xs: seq<T>): (r: seq<T>)
    ensures forall x :: x in r <==> x in xs
    ensures forall i, j :: 0 <= i < j < |r| ==> r[i] != r[j]
    ensures |r| <= |xs|
  {
    if xs == [] then []
    else
      var d := Distinct(xs[..|xs| - 1]);
      assert forall x :: x in xs <==> x in xs[..|xs| - 1] || x == xs[|xs| - 1];
      if xs[|xs| - 1] in d then d else d + [xs[|xs| - 1]]
  }

  function Groups(ws: seq<WorkerRow>): (r: seq<GroupKey>)
    ensures |r| == |ws| && forall i :: 0 <= i < |ws| ==> r[i] == GroupOf(ws[i])
  {
    if ws == [] then [] else Groups(ws[..|ws| - 1]) + [GroupOf(ws[|ws| - 1])]
  }

  function Periods(cs: seq<ContribRow>): (r: seq<PeriodKey>)
    ensures |r| == |cs| && forall i :: 0 <= i < |cs| ==> r[i] == PeriodOf(cs[i])
  {
    if cs == [] then [] else Periods(cs[..|cs| - 1]) + [PeriodOf(cs[|cs| - 1])]
  }

  // ----- the aggregates -----

  /** `sum(percepcion_integra)` over one group. */
  function IncomeSum(ws: seq<WorkerRow>, g: GroupKey): real {
    if ws == [] then 0.0
    else
      var w := ws[|ws| - 1];
      IncomeSum(ws[..|ws| - 1], g) + (if GroupOf(w) == g then w.percepcionIntegra else 0.0)
  }

  /** `contingencias_comunes_cte` for one (worker_id, year): the sum of the
      bases of every matching row, whatever its company; NULL with none. */
  function BaseSum(cs: seq<ContribRow>, workerId: string, year: int): Option<real> {
    if cs == [] then None
    else
      var c := cs[|cs| - 1];
      var s := BaseSum(cs[..|cs| - 1], workerId, year);
      if c.workerId == workerId && c.year == year then
        Some(match s case None => c.base case Some(v) => v + c.base)
      else s
  }

  /** `porcentaje_cte`: the sum over `cargas_sociales`; NULL when empty. */
  function PctSum(cs: seq<Carga>): Option<real> {
    if cs == [] then None else Some(SumPct(cs))
  }

  function Percentage(s: Option<real>): Option<real> {
    match s
    case None => None
    case Some(v) => Some(v / 100.0)
  }

  /** `(P + (B / 12) * (S / 100)) / H` with SQL NULLs: NULL if any operand
      is NULL; a zero divisor raises only when the dividend is not NULL. */
  function Cost(p: real, b: Option<real>, s: Option<real>, h: Option<real>): Result<Option<real>, QueryError> {
    if b.None? || s.None? || h.None? then Ok(None)
    else if h.value == 0.0 then Err(DivisionByZero)
    else Ok(Some((p + (b.value / 12.0) * (s.value / 100.0)) / h.value))
  }

  /** The output row of one group. */
  function RowOf(t: Tables, g: GroupKey): (r: Result<CostRow, QueryError>)
    ensures r.Ok? ==> KeyOfRow(r.value) == g
  {
    var b := BaseSum(t.contribs, g.workerId, g.year);
    var s := PctSum(t.cargas);
    var h := HoursOf(t.convenios, g.year);
    var p := IncomeSum(t.workers, g);
    match Cost(p, b, s, h)
    case Err(e) => Err(e)
    case Ok(coste) => Ok(CostRow(g.workerId, g.year, g.workerName, p, b, Percentage(s), h, coste))
  }

  /** The rows of the given groups; the query fails as a whole if one does. */
  function Rows(t: Tables, gs: seq<GroupKey>): (r: Result<seq<CostRow>, QueryError>)
    ensures r.Ok? <==> forall i :: 0 <= i < |gs| ==> RowOf(t, gs[i]).Ok?
    ensures r.Ok? ==> |r.value| == |gs| && forall i :: 0 <= i < |gs| ==> RowOf(t, gs[i]) == Ok(r.value[i])
  {
    if gs == [] then Ok([])
    else
      match RowOf(t, gs[0])
      case Err(e) => Err(e)
      case Ok(row) =>
        match Rows(t, gs[1..])
        case Err(e) => Err(e)
        case Ok(rest) =>
          assert forall i :: 1 <= i < |gs| ==> gs[i] == gs[1..][i - 1];
          Ok([row] + rest)
  }

  /** `get_workers_data`. */
  function WorkersData(t: Tables): (r: Result<seq<CostRow>, QueryError>)
    ensures !t.created ==> r == Err(UndefinedTable)
    ensures t.created ==> (r.Ok? <==> forall w :: w in t.workers ==> RowOf(t, GroupOf(w)).Ok?)
    ensures r.Ok? ==> |r.value| <= |t.workers|
  {
    if !t.created then Err(UndefinedTable)
    else
      GroupsCover(t.workers);
      GroupRowsOk(t);
      Rows(t, Distinct(Groups(t.workers)))
  }

  /** The sum of the bases of one (worker_id, periodo), over all companies
      and years. */
  function PeriodBase(cs: seq<ContribRow>, k: PeriodKey): real {
    if cs == [] then 0.0
    else
      var c := cs[|cs| - 1];
      PeriodBase(cs[..|cs| - 1], k) + (if PeriodOf(c) == k then c.base else 0.0)
  }

  function PeriodRows(cs: seq<ContribRow>, ks: seq<PeriodKey>): (r: seq<PeriodSum>)
    ensures |r| == |ks|
    ensures forall i :: 0 <= i < |ks| ==>
      r[i] == PeriodSum(ks[i].workerId, ks[i].periodo, PeriodBase(cs, ks[i]))
  {
    if ks == [] then []
    else
      assert forall i :: 1 <= i < |ks| ==> ks[i] == ks[1..][i - 1];
      [PeriodSum(ks[0].workerId, ks[0].periodo, PeriodBase(cs, ks[0]))] + PeriodRows(cs, ks[1..])
  }

  /** `SELECT worker_id, periodo, sum(base_contingencias_comunes) …
      GROUP BY worker_id, periodo`. */
  function PeriodSums(cs: seq<ContribRow>): seq<PeriodSum> {
    PeriodRows(cs, Distinct(Periods(cs)))
  }

  /** `get_all_workers`. */
  function AllWorkers(t: Tables): (r: Result<AllWorkersData, QueryError>)
    ensures !t.created ==> r == Err(UndefinedTable)
    ensures r.Ok? ==> r.value.trabajadores == t.workers
    ensures r.Ok? ==> |r.value.contingenciasComunes| <= |t.contribs|
    ensures r.Ok? ==> |r.value.costeHora| <= |t.workers|
  {
    if !t.created then Err(UndefinedTable)
    else
      match WorkersData(t)
      case Err(e) => Err(e)
      case Ok(rows) =>
        Ok(AllWorkersData(t.workers, PeriodSums(t.contribs), rows))
  }

  // ----- one row per group -----

  /** Some row of `ws` belongs to group `g`. */
  predicate HasWorker(ws: seq<WorkerRow>, g: GroupKey) {
    exists w :: w in ws && GroupOf(w) == g
  }

  /** Some output row is the row of group `g`. */
  predicate HasRow(rows: seq<CostRow>, g: GroupKey) {
    exists i :: 0 <= i < |rows| && KeyOfRow(rows[i]) == g
  }

  lemma {:induction false} InGroups(ws: seq<WorkerRow>, g: GroupKey)
    ensures g in Groups(ws) <==> HasWorker(ws, g)
  {
    var gs := Groups(ws);
    if g in gs {
      var i :| 0 <= i < |gs| && gs[i] == g;
      assert ws[i] in ws;
    }
    if HasWorker(ws, g) {
      var w :| w in ws && GroupOf(w) == g;
      var i :| 0 <= i < |ws| && ws[i] == w;
      assert gs[i] == g;
    }
  }

  /** Every group's row succeeds exactly when every worker's does. */
  lemma GroupRowsOk(t: Tables)
    ensures var gs := Distinct(Groups(t.workers));
      (forall i :: 0 <= i < |gs| ==> RowOf(t, gs[i]).Ok?) <==>
      (forall w :: w in t.workers ==> RowOf(t, GroupOf(w)).Ok?)
  {
    var gs := Distinct(Groups(t.workers));
    GroupsCover(t.workers);
    if forall w :: w in t.workers ==> RowOf(t, GroupOf(w)).Ok? {
      forall i | 0 <= i < |gs| ensures RowOf(t, gs[i]).Ok? {
        assert gs[i] in gs;
        var w :| w in t.workers && GroupOf(w) == gs[i];
      }
    }
  }

  lemma {:induction false} RowKeys(t: Tables, gs: seq<GroupKey>)
    requires Rows(t, gs).Ok?
    ensures var rows := Rows(t, gs).value;
      |rows| == |gs| && forall i :: 0 <= i < |rows| ==> KeyOfRow(rows[i]) == gs[i]
  {
  }

  /** `get_workers_data` yields one row per distinct (worker_id, year,
      worker_name) in `workers`, each the aggregate of its group. */
  lemma {:induction false} OneRowPerGroup(t: Tables)
    requires WorkersData(t).Ok?
    ensures var rows := WorkersData(t).value;
      && (forall i, j :: 0 <= i < j < |rows| ==> KeyOfRow(rows[i]) != KeyOfRow(rows[j]))
      && (forall i :: 0 <= i < |rows| ==> RowOf(t, KeyOfRow(rows[i])) == Ok(rows[i]))
  {
    RowKeys(t, Distinct(Groups(t.workers)));
  }

  lemma {:induction false} GroupsCover(ws: seq<WorkerRow>)
    ensures var gs := Distinct(Groups(ws));
      && (forall w :: w in ws ==> GroupOf(w) in gs)
      && (forall g :: g in gs ==> HasWorker(ws, g))
  {
    forall w | w in ws ensures GroupOf(w) in Distinct(Groups(ws)) {
      InGroups(ws, GroupOf(w));
    }
    forall g | g in Distinct(Groups(ws)) ensures HasWorker(ws, g) {
      InGroups(ws, g);
    }
  }

  /** Every worker row has its group's row in the output, and every output
      row comes from some worker row. */
  lemma {:induction false} RowsCoverWorkers(t: Tables)
    requires WorkersData(t).Ok?
    ensures var rows := WorkersData(t).value;
      && (forall w :: w in t.workers ==> HasRow(rows, GroupOf(w)))
      && (forall i :: 0 <= i < |rows| ==> HasWorker(t.workers, KeyOfRow(rows[i])))
  {
    var gs := Distinct(Groups(t.workers));
    assert WorkersData(t) == Rows(t, gs);
    RowKeys(t, gs);
    GroupsCover(t.workers);
    KeysCover(t.workers, gs, WorkersData(t).value);
  }

  lemma {:induction false} KeysCover(ws: seq<WorkerRow>, gs: seq<GroupKey>, rows: seq<CostRow>)
    requires |rows| == |gs| && forall i :: 0 <= i < |rows| ==> KeyOfRow(rows[i]) == gs[i]
    requires forall w :: w in ws ==> GroupOf(w) in gs
    requires forall g :: g in gs ==> HasWorker(ws, g)
    ensures forall w :: w in ws ==> HasRow(rows, GroupOf(w))
    ensures forall i :: 0 <= i < |rows| ==> HasWorker(ws, KeyOfRow(rows[i]))
  {
    forall w | w in ws ensures HasRow(rows, GroupOf(w)) {
      var i :| 0 <= i < |gs| && gs[i] == GroupOf(w);
      assert KeyOfRow(rows[i]) == GroupOf(w);
    }
    forall i | 0 <= i < |rows| ensures HasWorker(ws, KeyOfRow(rows[i])) {
      assert gs[i] in gs;
    }
  }

  // ----- NULLs and errors -----

  /** Some contribution row is for this worker and year. */
  predicate HasContribution(cs: seq<ContribRow>, workerId: string, year: int) {
    exists c :: c in cs && c.workerId == workerId && c.year == year
  }

  lemma {:induction false} BaseSumNone(cs: seq<ContribRow>, workerId: string, year: int)
    ensures BaseSum(cs, workerId, year).None? <==>
      !HasContribution(cs, workerId, year)
  {
    if cs != [] {
      var init := cs[..|cs| - 1];
      BaseSumNone(init, workerId, year);
      assert forall c :: c in cs <==> c in init || c == cs[|cs| - 1];
    }
  }

  /** A row's cost is NULL exactly when its year has no convenio row, its
      worker/year has no contribution row, or there are no social charges;
      otherwise it is the closed-form formula. */
  lemma {:induction false} CostOfRow(t: Tables, g: GroupKey)
    requires RowOf(t, g).Ok?
    ensures var r := RowOf(t, g).value;
      && (r.costeHora.None? <==>
            HoursOf(t.convenios, g.year).None?
            || !HasContribution(t.contribs, g.workerId, g.year)
            || t.cargas == [])
      && (r.baseContingenciasComunes.None? <==>
            !HasContribution(t.contribs, g.workerId, g.year))
      && (r.costeHora.Some? ==>
            var b := BaseSum(t.contribs, g.workerId, g.year).value;
            var h := HoursOf(t.convenios, g.year).value;
            h != 0.0 && r.costeHora.value ==
              (IncomeSum(t.workers, g) + (b / 12.0) * (SumPct(t.cargas) / 100.0)) / h)
  {
    CostNullIff(t, g);
    BaseNullIff(t, g);
    CostFormula(t, g);
  }

  lemma {:induction false} CostNullIff(t: Tables, g: GroupKey)
    requires RowOf(t, g).Ok?
    ensures RowOf(t, g).value.costeHora.None? <==>
      HoursOf(t.convenios, g.year).None?
      || !HasContribution(t.contribs, g.workerId, g.year)
      || t.cargas == []
  {
    var b := BaseSum(t.contribs, g.workerId, g.year);
    var s := PctSum(t.cargas);
    var h := HoursOf(t.convenios, g.year);
    var p := IncomeSum(t.workers, g);
    assert RowOf(t, g).value.costeHora == Cost(p, b, s, h).value;
    CostSpec(p, b, s, h);
    BaseSumNone(t.contribs, g.workerId, g.year);
  }

  lemma {:induction false} BaseNullIff(t: Tables, g: GroupKey)
    requires RowOf(t, g).Ok?
    ensures RowOf(t, g).value.baseContingenciasComunes.None? <==>
      !HasContribution(t.contribs, g.workerId, g.year)
  {
    assert RowOf(t, g).value.baseContingenciasComunes == BaseSum(t.contribs, g.workerId, g.year);
    BaseSumNone(t.contribs, g.workerId, g.year);
  }

  lemma {:induction false} CostFormula(t: Tables, g: GroupKey)
    requires RowOf(t, g).Ok?
    ensures var r := RowOf(t, g).value;
      r.costeHora.Some? ==>
        var b := BaseSum(t.contribs, g.workerId, g.year).value;
        var h := HoursOf(t.convenios, g.year).value;
        h != 0.0 && r.costeHora.value ==
          (IncomeSum(t.workers, g) + (b / 12.0) * (SumPct(t.cargas) / 100.0)) / h
  {
    var b := BaseSum(t.contribs, g.workerId, g.year);
    var s := PctSum(t.cargas);
    var h := HoursOf(t.convenios, g.year);
    var p := IncomeSum(t.workers, g);
    assert RowOf(t, g).value.costeHora == Cost(p, b, s, h).value;
    CostSpec(p, b, s, h);
  }

  /** The cost formula is NULL exactly when an operand is, and otherwise
      divides by a non-zero number of hours. */
  lemma CostSpec(p: real, b: Option<real>, s: Option<real>, h: Option<real>)
    requires Cost(p, b, s, h).Ok?
    ensures Cost(p, b, s, h).value.None? <==> b.None? || s.None? || h.None?
    ensures Cost(p, b, s, h).value.Some? ==>
      h.value != 0.0 && Cost(p, b, s, h).value.value == (p + (b.value / 12.0) * (s.value / 100.0)) / h.value
  {
  }

  /** A worker whose year has zero convenio hours while its cost dividend
      is not NULL makes the whole query fail. */
  lemma {:induction false} DivisionByZeroFrom(t: Tables, w: WorkerRow)
    requires t.created && t.cargas != [] && w in t.workers
    requires HoursOf(t.convenios, w.year) == Some(0.0)
    requires HasContribution(t.contribs, w.workerId, w.year)
    ensures WorkersData(t) == Err(DivisionByZero)
  {
    var gs := Distinct(Groups(t.workers));
    InGroups(t.workers, GroupOf(w));
    BaseSumNone(t.contribs, w.workerId, w.year);
    var i :| 0 <= i < |gs| && gs[i] == GroupOf(w);
    assert RowOf(t, gs[i]).Err?;
    RowsErrIsDivision(t, gs);
  }

  /** And that is the only way the query fails on existing tables. */
  lemma {:induction false} DivisionByZeroOnlyFrom(t: Tables)
    requires t.created && WorkersData(t).Err?
    ensures WorkersData(t).error == DivisionByZero
    ensures t.cargas != [] &&
      exists w :: w in t.workers && HoursOf(t.convenios, w.year) == Some(0.0) &&
        HasContribution(t.contribs, w.workerId, w.year)
  {
    var gs := Distinct(Groups(t.workers));
    RowsErrIsDivision(t, gs);
    var i :| 0 <= i < |gs| && RowOf(t, gs[i]).Err?;
    var g := gs[i];
    InGroups(t.workers, g);
    BaseSumNone(t.contribs, g.workerId, g.year);
    var w :| w in t.workers && GroupOf(w) == g;
    assert HoursOf(t.convenios, w.year) == Some(0.0);
  }

  lemma {:induction false} RowsErrIsDivision(t: Tables, gs: seq<GroupKey>)
    ensures Rows(t, gs).Err? ==> Rows(t, gs).error == DivisionByZero
  {
    if gs != [] {
      RowsErrIsDivision(t, gs[1..]);
    }
  }

  /** After `create_tables` the percentage column is 31.40 / 100 on every row. */
  lemma {:induction false} SeededPercentage(t: Tables)
    requires Valid(t) && WorkersData(t).Ok?
    ensures forall r :: r in WorkersData(t).value ==> r.porcentaje == Some(0.314)
  {
    SeedsFacts();
    OneRowPerGroup(t);
  }

  // ----- which facts meet -----

  lemma {:induction false} RowsAgree(t1: Tables, t2: Tables, gs: seq<GroupKey>)
    requires forall g :: g in gs ==> RowOf(t1, g) == RowOf(t2, g)
    ensures Rows(t1, gs) == Rows(t2, gs)
  {
    if gs != [] {
      RowsAgree(t1, t2, gs[1..]);
    }
  }

  /** A contribution row whose (worker_id, year) matches no worker row
      changes no output row. */
  lemma {:induction false} UnmatchedContributionIgnored(t: Tables, c: ContribRow)
    requires !exists w :: w in t.workers && w.workerId == c.workerId && w.year == c.year
    ensures WorkersData(AddContribution(t, c)) == WorkersData(t)
  {
    var t2 := AddContribution(t, c);
    if t2 != t {
      var gs := Distinct(Groups(t.workers));
      forall g | g in gs ensures RowOf(t2, g) == RowOf(t, g) {
        InGroups(t.workers, g);
        assert t2.contribs[..|t2.contribs| - 1] == t.contribs;
      }
      RowsAgree(t2, t, gs);
    }
  }

  /** A further income row for an existing group, from another company, adds
      its income to that group's row and leaves the base, percentage and
      hours as they were: the base is summed once per worker and year, not
      once per joined income row. */
  lemma {:induction false} ExtraCompanyAddsIncomeOnly(t: Tables, w: WorkerRow)
    requires RowOf(t, GroupOf(w)).Ok?
    ensures var t2 := t.(workers := t.workers + [w]);
      var r1 := RowOf(t, GroupOf(w)).value;
      && RowOf(t2, GroupOf(w)).Ok?
      && var r2 := RowOf(t2, GroupOf(w)).value;
      && r2.percepcionIntegra == r1.percepcionIntegra + w.percepcionIntegra
      && r2.baseContingenciasComunes == r1.baseContingenciasComunes
      && r2.porcentaje == r1.porcentaje
      && r2.horasConvenioAnuales == r1.horasConvenioAnuales
  {
    var t2 := t.(workers := t.workers + [w]);
    assert t2.workers[..|t2.workers| - 1] == t.workers;
  }

  // ----- get_all_workers -----

  lemma {:induction false} InPeriods(cs: seq<ContribRow>, k: PeriodKey)
    ensures k in Periods(cs) <==> exists c :: c in cs && PeriodOf(c) == k
  {
    var ks := Periods(cs);
    if k in ks {
      var i :| 0 <= i < |ks| && ks[i] == k;
      assert cs[i] in cs;
    }
    if exists c :: c in cs && PeriodOf(c) == k {
      var c :| c in cs && PeriodOf(c) == k;
      var i :| 0 <= i < |cs| && cs[i] == c;
      assert ks[i] == k;
    }
  }

  /** `get_all_workers` fails exactly when `get_workers_data` does, with
      the same error. Otherwise it returns the raw `workers` rows; one
      period row per distinct (worker_id, periodo) of
      `contingencias_comunes`, holding the sum of that key's bases; and one
      cost row per distinct (worker_id, year, worker_name) of `workers`,
      holding that group's aggregate. */
  lemma {:induction false} AllWorkersParts(t: Tables)
    ensures AllWorkers(t).Ok? <==> WorkersData(t).Ok?
    ensures AllWorkers(t).Err? ==> AllWorkers(t).error == WorkersData(t).error
    ensures AllWorkers(t).Ok? ==>
      var a := AllWorkers(t).value;
      && a.trabajadores == t.workers
      && (forall i, j :: 0 <= i < j < |a.contingenciasComunes| ==>
            KeyOfSum(a.contingenciasComunes[i]) != KeyOfSum(a.contingenciasComunes[j]))
      && (forall c :: c in t.contribs ==> HasPeriodSum(a.contingenciasComunes, PeriodOf(c)))
      && (forall i :: 0 <= i < |a.contingenciasComunes| ==>
            HasPeriod(t.contribs, KeyOfSum(a.contingenciasComunes[i]))
            && a.contingenciasComunes[i].base == PeriodBase(t.contribs, KeyOfSum(a.contingenciasComunes[i])))
      && (forall i, j :: 0 <= i < j < |a.costeHora| ==> KeyOfRow(a.costeHora[i]) != KeyOfRow(a.costeHora[j]))
      && (forall w :: w in t.workers ==> HasRow(a.costeHora, GroupOf(w)))
      && (forall i :: 0 <= i < |a.costeHora| ==>
            HasWorker(t.workers, KeyOfRow(a.costeHora[i]))
            && RowOf(t, KeyOfRow(a.costeHora[i])) == Ok(a.costeHora[i]))
  {
    if AllWorkers(t).Ok? {
      PeriodSumsGroup(t.contribs);
      PeriodSumsBase(t.contribs);
      OneRowPerGroup(t);
      RowsCoverWorkers(t);
    }
  }

  function KeyOfSum(p: PeriodSum): PeriodKey {
    PeriodKey(p.workerId, p.periodo)
  }

  /** Some contribution row has this (worker_id, periodo). */
  predicate HasPeriod(cs: seq<ContribRow>, k: PeriodKey) {
    exists c :: c in cs && PeriodOf(c) == k
  }

  /** Some period row has this (worker_id, periodo). */
  predicate HasPeriodSum(ps: seq<PeriodSum>, k: PeriodKey) {
    exists i :: 0 <= i < |ps| && KeyOfSum(ps[i]) == k
  }

  /** The period grouping has a row for the (worker_id, periodo) of every
      contribution row, and no other. */
  lemma {:induction false} PeriodSumsGroup(cs: seq<ContribRow>)
    ensures var ps := PeriodSums(cs);
      && (forall c :: c in cs ==> HasPeriodSum(ps, PeriodOf(c)))
      && (forall i :: 0 <= i < |ps| ==> HasPeriod(cs, KeyOfSum(ps[i])))
  {
    var ks := Distinct(Periods(cs));
    var ps := PeriodSums(cs);
    PeriodsCover(cs);
    PeriodSumKeys(cs);
    forall c | c in cs ensures HasPeriodSum(ps, PeriodOf(c)) {
      var i :| 0 <= i < |ks| && ks[i] == PeriodOf(c);
      assert KeyOfSum(ps[i]) == PeriodOf(c);
    }
    forall i | 0 <= i < |ps| ensures HasPeriod(cs, KeyOfSum(ps[i])) {
      assert ks[i] in ks;
    }
  }

  lemma {:induction false} PeriodSumKeys(cs: seq<ContribRow>)
    ensures var ps := PeriodSums(cs);
      var ks := Distinct(Periods(cs));
      |ps| == |ks| && forall i :: 0 <= i < |ps| ==> KeyOfSum(ps[i]) == ks[i]
  {
  }

  /** Its rows have distinct keys, and each holds the sum of the bases of
      that worker and period over every company and year. */
  lemma {:induction false} PeriodSumsBase(cs: seq<ContribRow>)
    ensures var ps := PeriodSums(cs);
      && (forall i, j :: 0 <= i < j < |ps| ==> KeyOfSum(ps[i]) != KeyOfSum(ps[j]))
      && (forall i :: 0 <= i < |ps| ==> ps[i].base == PeriodBase(cs, KeyOfSum(ps[i])))
  {
    var ks := Distinct(Periods(cs));
    var ps := PeriodSums(cs);
    assert forall i :: 0 <= i < |ps| ==> KeyOfSum(ps[i]) == ks[i];
  }

  lemma {:induction false} PeriodsCover(cs: seq<ContribRow>)
    ensures var ks := Distinct(Periods(cs));
      && (forall c :: c in cs ==> PeriodOf(c) in ks)
      && (forall k :: k in ks ==> exists c :: c in cs && PeriodOf(c) == k)
  {
    forall c | c in cs ensures PeriodOf(c) in Distinct(Periods(cs)) {
      InPeriods(cs, PeriodOf(c));
    }
    forall k | k in Distinct(Periods(cs)) ensures exists c :: c in cs && PeriodOf(c) == k {
      InPeriods(cs, k);
    }
  }

  function TotalBase(cs: seq<ContribRow>): real {
    if cs == [] then 0.0 else TotalBase(cs[..|cs| - 1]) + cs[|cs| - 1].base
  }

  function SumPeriods(cs: seq<ContribRow>, ks: seq<PeriodKey>): real {
    if ks == [] then 0.0 else PeriodBase(cs, ks[0]) + SumPeriods(cs, ks[1..])
  }

  lemma {:induction false} SumPeriodsAppendRow(cs: seq<ContribRow>, c: ContribRow, ks: seq<PeriodKey>)
    requires forall i, j :: 0 <= i < j < |ks| ==> ks[i] != ks[j]
    ensures SumPeriods(cs + [c], ks) ==
      SumPeriods(cs, ks) + (if PeriodOf(c) in ks then c.base else 0.0)
  {
    if ks != [] {
      assert (cs + [c])[..|cs + [c]| - 1] == cs;
      SumPeriodsAppendRow(cs, c, ks[1..]);
      assert PeriodOf(c) in ks <==> PeriodOf(c) == ks[0] || PeriodOf(c) in ks[1..];
      assert ks[0] !in ks[1..];
    }
  }

  lemma {:induction false} SumPeriodsAppendKey(cs: seq<ContribRow>, ks: seq<PeriodKey>, k: PeriodKey)
    ensures SumPeriods(cs, ks + [k]) == SumPeriods(cs, ks) + PeriodBase(cs, k)
  {
    if ks != [] {
      assert (ks + [k])[1..] == ks[1..] + [k];
      SumPeriodsAppendKey(cs, ks[1..], k);
    }
  }

  lemma {:induction false} PeriodBaseAbsent(cs: seq<ContribRow>, k: PeriodKey)
    requires !exists c :: c in cs && PeriodOf(c) == k
    ensures PeriodBase(cs, k) == 0.0
  {
    if cs != [] {
      PeriodBaseAbsent(cs[..|cs| - 1], k);
    }
  }

  /** The period grouping loses no base and counts none twice: its sums
      add up to the sum of every base in the table. */
  lemma {:induction false} PeriodSumsTotal(cs: seq<ContribRow>)
    ensures SumPeriods(cs, Distinct(Periods(cs))) == TotalBase(cs)
  {
    if cs != [] {
      var init := cs[..|cs| - 1];
      var c := cs[|cs| - 1];
      assert cs == init + [c];
      assert Periods(cs)[..|cs| - 1] == Periods(init);
      var ks := Distinct(Periods(init));
      PeriodSumsTotal(init);
      SumPeriodsAppendRow(init, c, ks);
      if PeriodOf(c) !in ks {
        InPeriods(init, PeriodOf(c));
        PeriodBaseAbsent(init, PeriodOf(c));
        SumPeriodsAppendKey(cs, ks, PeriodOf(c));
      }
    }
  }
}
