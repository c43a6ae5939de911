/** The installment generator of `POST /gastos`: validation of the request
    and the rows one submission turns into. Amounts are integer cents. */
module Installments {
  import opened Wrappers
  import opened Calendar
  import Text

  /** The request body after JavaScript's numeric coercion: `None` stands for
      a field that is missing or NaN, the description for the string sent
      (empty when missing). `parcelas` is `None` when it was not sent. */
  datatype CreateRequest = CreateRequest(
    descricao: string,
    valor: Option<int>,
    dia: Option<int>,
    mes: Option<int>,
    ano: Option<int>,
    parcelas: Option<int>)

  /** One row to insert: description, amount in cents and due date. */
  datatype Installment = Installment(descricao: string, valor: int, vencimento: Date)

  /** The guard of the handler: a description, a positive amount and numeric
      day, month and year. */
  predicate IsValidCreate(req: CreateRequest) {
    req.descricao != []
    && req.valor.Some? && req.valor.value > 0
    && req.dia.Some? && req.mes.Some? && req.ano.Some?
  }

  /** The destructuring default `parcelas = 1`. */
  function Parcelas(req: CreateRequest): int {
    match req.parcelas
    case None => 1
    case Some(n) => n
  }

  /** The loop `for (i = 0; i < parcelas; i++)` runs no iteration for a
      count below 1. */
  function RowCount(req: CreateRequest): (n: nat)
    ensures n == 0 <==> Parcelas(req) <= 0
    ensures n > 0 ==> n == Parcelas(req)
  {
    if Parcelas(req) > 0 then Parcelas(req) else 0
  }

  /** `valor / parcelas` stored into a DECIMAL(10,2) column: the quotient
      rounded to the nearest cent, halves away from zero. */
  function AmountPerInstallment(valor: int, n: int): (q: int)
    requires valor >= 0 && n >= 1
    ensures q >= 0
    ensures -n < 2 * (n * q - valor) <= n
  {
    var q := (2 * valor + n) / (2 * n);
    var r := (2 * valor + n) % (2 * n);
    assert 2 * valor + n == 2 * n * q + r && 0 <= r < 2 * n;
    q
  }

  /** The text ` (i+1/n)` appended to installment `i` of `n`. */
  function Suffix(i: nat, n: nat): string {
    " (" + Text.NatToString(i + 1) + "/" + Text.NatToString(n) + ")"
  }

  /** The calendar date `new Date(ano, mes - 1, dia)` names. */
  function CalendarBase(req: CreateRequest): (d: Date)
    requires IsValidCreate(req)
    ensures Valid(d)
  {
    CalendarDate(req.ano.value, req.mes.value - 1, req.dia.value)
  }

  /** `new Date(ano, mes - 1, dia)`: `None` for an Invalid Date. */
  function BaseDueDate(req: CreateRequest): (d: Option<Date>)
    requires IsValidCreate(req)
    ensures d.Some? <==> InTimeRange(CalendarBase(req))
    ensures d.Some? ==> d.value == CalendarBase(req) && Valid(d.value)
  {
    MakeDate(req.ano.value, req.mes.value - 1, req.dia.value)
  }

  /** A `dia`, `mes` and `ano` that name an existing date give that date as
      the base. */
  lemma BaseDueDateOfValid(req: CreateRequest)
    requires IsValidCreate(req) && Valid(Date(FullYear(req.ano.value), req.mes.value, req.dia.value))
    ensures CalendarBase(req) == Date(FullYear(req.ano.value), req.mes.value, req.dia.value)
  {
    CalendarDateOfValid(req.ano.value, req.mes.value, req.dia.value);
  }

  /** `dataParcela` in iteration `i`: the base date advanced by `i` months
      with `setMonth`, `None` for an Invalid Date. */
  function DueDate(req: CreateRequest, i: nat): Option<Date>
    requires IsValidCreate(req)
  {
    SetMonth(BaseDueDate(req), i)
  }

  /** The description of installment `i`: ` (i+1/n)` is appended only when
      the count is above 1. */
  function DescriptionAt(req: CreateRequest, i: nat): string {
    var n := Parcelas(req);
    req.descricao + (if n > 1 then Suffix(i, n) else "")
  }

  /** Installment `i` of the plan, given the amount computed once before the
      loop and the base due date. */
  function InstallmentAt(req: CreateRequest, amount: int, base: Date, i: nat): Installment {
    Installment(DescriptionAt(req, i), amount, AddMonths(base, i))
  }

  /** The rows one valid request describes, in loop order, as if every due
      date lay in the time range. */
  function Plan(req: CreateRequest): (p: seq<Installment>)
    requires IsValidCreate(req)
    ensures |p| == RowCount(req)
    ensures forall k :: 0 <= k < |p| ==> p[k].valor >= 0
  {
    if RowCount(req) == 0 then []
    else
      var amount := AmountPerInstallment(req.valor.value, Parcelas(req));
      seq(RowCount(req), i requires 0 <= i < RowCount(req) =>
        InstallmentAt(req, amount, CalendarBase(req), i))
  }

  /** Row `i` of the plan is built from the amount and the base date
      computed once, before the loop. */
  lemma PlanAt(req: CreateRequest, i: int)
    requires IsValidCreate(req) && 0 <= i < RowCount(req)
    ensures Plan(req)[i] ==
      InstallmentAt(req, AmountPerInstallment(req.valor.value, Parcelas(req)), CalendarBase(req), i)
    ensures Plan(req)[i].valor >= 0
  {
  }

  /** The due date the loop computes for row `i` is the plan's, unless it is
      an Invalid Date, which it is exactly when the base date or row `i`'s
      date lies outside the time range. */
  lemma DueDateOfPlan(req: CreateRequest, i: int)
    requires IsValidCreate(req) && 0 <= i < RowCount(req)
    ensures DueDate(req, i).Some? <==>
      InTimeRange(CalendarBase(req)) && InTimeRange(Plan(req)[i].vencimento)
    ensures DueDate(req, i).Some? ==> DueDate(req, i).value == Plan(req)[i].vencimento
  {
    PlanAt(req, i);
  }

  /** Once a due date leaves the time range every later one stays out:
      from a base date in range the dates only grow. */
  lemma FailureIsFinal(req: CreateRequest, i: nat, j: nat)
    requires IsValidCreate(req) && i < j && DueDate(req, i).None?
    ensures DueDate(req, j).None?
  {
    var base := CalendarBase(req);
    if InTimeRange(base) {
      var di, dj := AddMonths(base, i), AddMonths(base, j);
      AddMonthsZero(base);
      assert i > 0;
      AddMonthsIncreasing(base, 0, i);
      AddMonthsIncreasing(base, i, j);
      if Before(di, FirstDay) {
        BeforeTransitive(base, di, FirstDay);
      }
      BeforeTransitive(LastDay, di, dj);
    }
  }

  /** The first row at or after `i` whose due date is an Invalid Date, or
      the row count when there is none: `toISOString` throws there and the
      loop stops. */
  function FirstFailure(req: CreateRequest, i: nat): (k: nat)
    requires IsValidCreate(req) && i <= RowCount(req)
    ensures i <= k <= RowCount(req)
    ensures forall j :: i <= j < k ==> DueDate(req, j).Some?
    ensures k < RowCount(req) ==> DueDate(req, k).None?
    decreases RowCount(req) - i
  {
    if i == RowCount(req) || DueDate(req, i).None? then i else FirstFailure(req, i + 1)
  }

  /** How many rows the handler inserts before it stops. */
  function Inserted(req: CreateRequest): nat
    requires IsValidCreate(req)
  {
    FirstFailure(req, 0)
  }

  /** The row the loop builds in iteration `i`, when its due date is valid,
      is row `i` of the plan. */
  lemma PlanRowOfDueDate(req: CreateRequest, i: int)
    requires IsValidCreate(req) && 0 <= i < RowCount(req) && DueDate(req, i).Some?
    ensures Installment(DescriptionAt(req, i), AmountPerInstallment(req.valor.value, Parcelas(req)),
      DueDate(req, i).value) == Plan(req)[i]
    ensures Plan(req)[i].valor >= 0
  {
    PlanAt(req, i);
    DueDateOfPlan(req, i);
  }

  /** The rows inserted are exactly the rows whose due date lies in the time
      range. */
  lemma InsertedRows(req: CreateRequest, j: int)
    requires IsValidCreate(req) && 0 <= j < RowCount(req)
    ensures DueDate(req, j).Some? <==> j < Inserted(req)
  {
    if Inserted(req) <= j && Inserted(req) < RowCount(req) {
      if Inserted(req) < j {
        FailureIsFinal(req, Inserted(req), j);
      }
    }
  }

  /** Three installments from 275760-08-13: the third would fall on
      275760-10-13, past the end of the time range, so two rows are
      inserted before the handler fails. */
  lemma PartialInsertExample()
    ensures var req := CreateRequest("x", Some(300), Some(13), Some(8), Some(275760), Some(3));
      Inserted(req) == 2
  {
    var req := CreateRequest("x", Some(300), Some(13), Some(8), Some(275760), Some(3));
    var base := Date(275760, 8, 13);
    CalendarDateOfValid(275760, 8, 13);
    assert CalendarBase(req) == base;
    var k := MonthIndex(base);
    assert (k + 1) / 12 == 275760 && (k + 1) % 12 + 1 == 9;
    assert (k + 2) / 12 == 275760 && (k + 2) % 12 + 1 == 10;
    AddMonthsShape(base, 1);
    AddMonthsShape(base, 2);
    AddMonthsZero(base);
    assert DueDate(req, 0) == Some(base);
    assert DueDate(req, 1) == Some(Date(275760, 9, 13));
    assert DueDate(req, 2) == None;
    InsertedRows(req, 1);
    InsertedRows(req, 2);
  }

  function PlanTotal(p: seq<Installment>): int {
    if p == [] then 0 else PlanTotal(p[..|p| - 1]) + p[|p| - 1].valor
  }

  /** Every row carries the same amount, the rounded share of the total. */
  lemma PlanAmounts(req: CreateRequest, i: int)
    requires IsValidCreate(req) && 0 <= i < RowCount(req)
    ensures Plan(req)[i].valor == AmountPerInstallment(req.valor.value, RowCount(req))
    ensures Plan(req)[i].valor == Plan(req)[0].valor
  {
  }

  /** A single-row request keeps its description; a multi-row one marks row
      `i` with ` (i+1/n)`. */
  lemma PlanDescriptions(req: CreateRequest, i: int)
    requires IsValidCreate(req) && 0 <= i < RowCount(req)
    ensures RowCount(req) == 1 ==> Plan(req)[i].descricao == req.descricao
    ensures RowCount(req) > 1 ==>
      Plan(req)[i].descricao == req.descricao + Suffix(i, RowCount(req))
  {
  }

  /** The counter in the suffix of row `i` reads back as `i + 1`. */
  lemma SuffixCounter(i: nat, n: nat)
    ensures var s := Text.NatToString(i + 1);
      Suffix(i, n)[2..2 + |s|] == s && Text.ParseNat(s) == i + 1
  {
    Text.ParseNatToString(i + 1);
  }

  /** Row `i` falls due `i` months after the base date, and the due dates
      strictly increase along the plan. */
  lemma PlanDueDates(req: CreateRequest, i: int, j: int)
    requires IsValidCreate(req) && 0 <= i < RowCount(req)
    ensures Plan(req)[0].vencimento == CalendarBase(req)
    ensures Plan(req)[i].vencimento == AddMonths(CalendarBase(req), i)
    ensures i < j < RowCount(req) ==> Before(Plan(req)[i].vencimento, Plan(req)[j].vencimento)
  {
    AddMonthsZero(CalendarBase(req));
    if i < j < RowCount(req) {
      AddMonthsIncreasing(CalendarBase(req), i, j);
    }
  }

  lemma {:induction false} PlanTotalOfEqualAmounts(p: seq<Installment>, q: int)
    requires forall k :: 0 <= k < |p| ==> p[k].valor == q
    ensures PlanTotal(p) == |p| * q
  {
    if p != [] {
      PlanTotalOfEqualAmounts(p[..|p| - 1], q);
    }
  }

  /** No remainder is redistributed: the rows add up to the total only to
      within half a cent per row. */
  lemma PlanTotalBound(req: CreateRequest)
    requires IsValidCreate(req) && RowCount(req) >= 1
    ensures var n: int := RowCount(req);
      -n < 2 * (PlanTotal(Plan(req)) - req.valor.value) <= n
  {
    var n := RowCount(req);
    var q := AmountPerInstallment(req.valor.value, n);
    PlanTotalOfEqualAmounts(Plan(req), q);
  }

  /** R$ 1.00 in three installments is three rows of R$ 0.33: one cent is
      lost. */
  lemma ResidualExample()
    ensures var req := CreateRequest("x", Some(100), Some(1), Some(1), Some(2024), Some(3));
      PlanTotal(Plan(req)) == 99
  {
    var req := CreateRequest("x", Some(100), Some(1), Some(1), Some(2024), Some(3));
    PlanTotalOfEqualAmounts(Plan(req), 33);
  }

  /** A count of zero or below creates nothing, yet the request succeeds. */
  lemma NoRowsForNonPositiveCount(req: CreateRequest)
    requires IsValidCreate(req) && req.parcelas.Some? && req.parcelas.value <= 0
    ensures Plan(req) == []
  {
  }
}
