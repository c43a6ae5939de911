/** The tables `gastos` and `limites_gastos` held in memory, and the request
    handlers that write them. The authenticated user id is an input. */
module Store {
  import opened Wrappers
  import opened Calendar
  import opened Installments
  import opened Reconciler

  /** A row of `gastos`; the key `id` is the map key of the table. */
  datatype Gasto = Gasto(
    usuarioId: int,
    descricao: string,
    valor: int,
    valorPago: int,
    status: Status,
    vencimento: Date)

  /** The unique key `(usuario_id, mes, ano)` of `limites_gastos`. */
  datatype LimitKey = LimitKey(usuarioId: int, mes: int, ano: int)

  /** The answer of `POST /gastos`: 400, 201 with the message in plural
      ('Parcelas') or singular ('Gasto'), or 500. */
  datatype CreateOutcome = CreateRejected | Created(plural: bool) | CreateFailed

  datatype PayOutcome = PayRejected(reason: Rejection) | PayNotFound | PayAccepted(status: Status, valorPago: int)

  /** The body of `PUT /gastos/:id`; `vencimento` is `None` when empty or
      missing. */
  datatype UpdateRequest = UpdateRequest(descricao: string, valor: Option<int>, vencimento: Option<Date>)

  datatype WriteOutcome = WriteRejected | WriteNotFound | WriteDone

  /** The body of `POST /limite-gastos`. */
  datatype LimitRequest = LimitRequest(limite: Option<int>, mes: Option<int>, ano: Option<int>)

  datatype LimitLookup = LimitBadRequest | LimitNotFound | LimitFound(limite: int)

  /** A freshly inserted installment: nothing paid, status `pendente`. */
  function NewRow(user: int, inst: Installment): (g: Gasto)
    ensures g.valorPago == 0 && g.status == Pendente && g.usuarioId == user
  {
    Gasto(user, inst.descricao, inst.valor, 0, Pendente, inst.vencimento)
  }

  /** The rows a plan inserts, numbered by AUTO_INCREMENT from `first`. */
  function PlanRows(user: int, plan: seq<Installment>, first: int): map<int, Gasto> {
    if plan == [] then map[]
    else
      var last := |plan| - 1;
      PlanRows(user, plan[..last], first)[first + last := NewRow(user, plan[last])]
  }

  /** The plan's rows occupy the consecutive ids from `first`, row `k`
      holding installment `k`. */
  lemma {:induction false} PlanRowsLayout(user: int, plan: seq<Installment>, first: int)
    ensures var m := PlanRows(user, plan, first);
      && (forall k :: k in m <==> first <= k < first + |plan|)
      && (forall k :: k in m ==> m[k] == NewRow(user, plan[k - first]))
  {
    if plan != [] {
      var last := |plan| - 1;
      PlanRowsLayout(user, plan[..last], first);
      var m := PlanRows(user, plan, first);
      assert m == PlanRows(user, plan[..last], first)[first + last := NewRow(user, plan[last])];
      forall k | k in m
        ensures m[k] == NewRow(user, plan[k - first])
      {
        if k != first + last {
          assert plan[..last][k - first] == plan[k - first];
        }
      }
    }
  }

  lemma PlanRowsWithinTotal(user: int, plan: seq<Installment>, first: int)
    requires forall k :: 0 <= k < |plan| ==> plan[k].valor >= 0
    ensures PaidWithinTotal(PlanRows(user, plan, first))
  {
    PlanRowsLayout(user, plan, first);
  }

  lemma PlanRowsSnoc(user: int, plan: seq<Installment>, first: int, i: int)
    requires 0 <= i < |plan|
    ensures PlanRows(user, plan[..i + 1], first)
         == PlanRows(user, plan[..i], first)[first + i := NewRow(user, plan[i])]
  {
    assert plan[..i + 1][..i] == plan[..i];
  }

  lemma UnionUpdate<K, V>(a: map<K, V>, b: map<K, V>, k: K, v: V)
    requires k !in a
    ensures (a + b)[k := v] == a + b[k := v]
  {
  }

  /** Inserting row `i` of a plan into a table already holding rows `0..i-1`
      gives the table holding rows `0..i`. */
  lemma InsertStep(user: int, plan: seq<Installment>, before: map<int, Gasto>, first: int, i: int,
                    rows: map<int, Gasto>, id: int, row: Gasto)
    requires 0 <= i < |plan| && first + i !in before
    requires rows == before + PlanRows(user, plan[..i], first)
    requires id == first + i && row == NewRow(user, plan[i])
    ensures rows[id := row] == before + PlanRows(user, plan[..i + 1], first)
  {
    PlanRowsSnoc(user, plan, first, i);
    UnionUpdate(before, PlanRows(user, plan[..i], first), first + i, NewRow(user, plan[i]));
  }

  /** The body of the insert loop of `POST /gastos` up to the INSERT:
      `dataParcela`, then the row bound to the statement, or `None` when
      `dataParcela` is an Invalid Date and `toISOString` throws. */
  method BuildRow(user: int, req: CreateRequest, valorPorParcela: int, dataVencimento: Option<Date>, i: nat)
    returns (row: Option<Gasto>)
    requires IsValidCreate(req) && i < RowCount(req)
    requires valorPorParcela == AmountPerInstallment(req.valor.value, Parcelas(req))
    requires dataVencimento == BaseDueDate(req)
    ensures row.Some? <==> i < Inserted(req)
    ensures row.Some? ==> row.value == NewRow(user, Plan(req)[i])
  {
    var dataParcela := SetMonth(dataVencimento, i);
    assert dataParcela == DueDate(req, i);
    InsertedRows(req, i);
    if dataParcela.None? {
      return None;
    }
    PlanRowOfDueDate(req, i);
    return Some(NewRow(user, Installment(DescriptionAt(req, i), valorPorParcela, dataParcela.value)));
  }

  /** `WHERE id = ? AND usuario_id = ?` matches a row. */
  predicate Owns(rows: map<int, Gasto>, id: int, user: int) {
    id in rows && rows[id].usuarioId == user
  }

  /** JavaScript truthiness of a numeric field: present and not 0. */
  predicate IsTruthy(x: Option<int>) {
    x.Some? && x.value != 0
  }

  predicate IsValidUpdate(req: UpdateRequest) {
    req.descricao != [] && req.valor.Some? && req.valor.value > 0 && req.vencimento.Some?
  }

  predicate IsValidLimit(req: LimitRequest) {
    req.limite.Some? && req.limite.value >= 0 && IsTruthy(req.mes) && IsTruthy(req.ano)
  }

  /** The row after `UPDATE gastos SET descricao = ?, valor = ?, vencimento = ?`. */
  function Edited(g: Gasto, req: UpdateRequest): (e: Gasto)
    requires IsValidUpdate(req)
    ensures e.usuarioId == g.usuarioId && e.valorPago == g.valorPago && e.status == g.status
    ensures e.descricao == req.descricao && e.valor == req.valor.value && e.vencimento == req.vencimento.value
  {
    g.(descricao := req.descricao, valor := req.valor.value, vencimento := req.vencimento.value)
  }

  /** An edit neither recomputes the status nor keeps `valor_pago <= valor`:
      lowering the value of an expense below what was paid leaves it
      partially paid while overpaid, and no payment can be applied any
      more. */
  lemma EditCanOverpay(d: Date)
    ensures var g := Gasto(1, "aluguel", 10000, 8000, ParcialmentePago, d);
      var e := Edited(g, UpdateRequest("aluguel", Some(5000), Some(d)));
      && PaidWithinTotal(map[1 := g])
      && !PaidWithinTotal(map[1 := e])
      && e.status == ParcialmentePago
      && forall p :: !Reconcile(e.valor, e.valorPago, p).Accepted?
  {
    var g := Gasto(1, "aluguel", 10000, 8000, ParcialmentePago, d);
    var e := Edited(g, UpdateRequest("aluguel", Some(5000), Some(d)));
    assert 1 in map[1 := e];
  }

  /** `0 <= valor_pago <= valor` for every row. */
  predicate PaidWithinTotal(rows: map<int, Gasto>) {
    forall id :: id in rows ==> 0 <= rows[id].valorPago <= rows[id].valor
  }

  /** `GET /limite-gastos` over a limits table. */
  function LookupLimit(limits: map<LimitKey, int>, user: int, mes: Option<int>, ano: Option<int>): (r: LimitLookup)
    ensures r == LimitBadRequest <==> !(IsTruthy(mes) && IsTruthy(ano))
    ensures r.LimitFound? ==>
      LimitKey(user, mes.value, ano.value) in limits && limits[LimitKey(user, mes.value, ano.value)] == r.limite
    ensures r == LimitNotFound ==> LimitKey(user, mes.value, ano.value) !in limits
  {
    if !(IsTruthy(mes) && IsTruthy(ano)) then LimitBadRequest
    else if LimitKey(user, mes.value, ano.value) in limits then LimitFound(limits[LimitKey(user, mes.value, ano.value)])
    else LimitNotFound
  }

  /** After an upsert the lookup returns the posted limit, and the limits of
      every other month, year and user are as before. */
  lemma UpsertThenLookup(limits: map<LimitKey, int>, user: int, req: LimitRequest, u: int, mes: Option<int>, ano: Option<int>)
    requires IsValidLimit(req)
    ensures var key := LimitKey(user, req.mes.value, req.ano.value);
      && LookupLimit(limits[key := req.limite.value], user, req.mes, req.ano) == LimitFound(req.limite.value)
      && (IsTruthy(mes) && IsTruthy(ano) && LimitKey(u, mes.value, ano.value) != key ==>
            LookupLimit(limits[key := req.limite.value], u, mes, ano) == LookupLimit(limits, u, mes, ano))
  {
  }

  class Database {
    var gastos: map<int, Gasto>
    var limites: map<LimitKey, int>
    /** The next AUTO_INCREMENT value of `gastos`. */
    var nextId: int

    ghost predicate Valid()
      reads this
    {
      nextId >= 1 && forall id :: id in gastos ==> 1 <= id < nextId
    }

    constructor ()
      ensures Valid() && gastos == map[] && limites == map[] && nextId == 1
    {
      gastos := map[];
      limites := map[];
      nextId := 1;
    }

    /** `POST /gastos`: validate, then insert one row per installment
        until a due date is an Invalid Date, whose `toISOString` throws; the
        rows issued before it stay inserted. */
    method CreateGastos(user: int, req: CreateRequest) returns (r: CreateOutcome)
      requires Valid()
      modifies this`gastos, this`nextId
      ensures Valid() && limites == old(limites)
      ensures !IsValidCreate(req) ==>
        r == CreateRejected && gastos == old(gastos) && nextId == old(nextId)
      ensures IsValidCreate(req) ==>
        var k := Inserted(req);
        && nextId == old(nextId) + k
        && gastos == old(gastos) + PlanRows(user, Plan(req)[..k], old(nextId))
        && r == (if k < RowCount(req) then CreateFailed else Created(Parcelas(req) > 1))
      ensures PaidWithinTotal(old(gastos)) ==> PaidWithinTotal(gastos)
    {
      if !IsValidCreate(req) {
        return CreateRejected;
      }
      ghost var plan := Plan(req);
      // `valor / parcelas` is computed before the loop and read only inside it.
      var valorPorParcela := if Parcelas(req) >= 1 then AmountPerInstallment(req.valor.value, Parcelas(req)) else 0;
      var dataVencimento := BaseDueDate(req);
      var i := 0;
      assert PlanRows(user, plan[..0], old(nextId)) == map[];
      assert gastos == old(gastos) + map[];
      while i < Parcelas(req)
        invariant 0 <= i <= RowCount(req)
        invariant nextId == old(nextId) + i
        invariant forall id :: id in gastos ==> 1 <= id < nextId
        invariant i <= Inserted(req)
        invariant gastos == old(gastos) + PlanRows(user, plan[..i], old(nextId))
      {
        var row := BuildRow(user, req, valorPorParcela, dataVencimento, i);
        if row.None? {
          PlanRowsWithinTotal(user, plan[..i], old(nextId));
          return CreateFailed;
        }
        InsertStep(user, plan, old(gastos), old(nextId), i, gastos, nextId, row.value);
        gastos := gastos[nextId := row.value];
        nextId := nextId + 1;
        i := i + 1;
      }
      assert i == RowCount(req);
      assert plan[..i] == plan;
      PlanRowsWithinTotal(user, plan, old(nextId));
      return Created(Parcelas(req) > 1);
    }

    /** `PUT /gastos/pagar/:id`: a non-positive payment is refused before
        the lookup; then the row must belong to the user; then the
        reconciler decides. */
    method Pay(user: int, id: int, payment: Option<int>) returns (r: PayOutcome)
      requires Valid()
      modifies this`gastos
      ensures Valid() && limites == old(limites) && nextId == old(nextId)
      ensures !IsPositivePayment(payment) ==>
        r == PayRejected(NotPositive) && gastos == old(gastos)
      ensures IsPositivePayment(payment) && !Owns(old(gastos), id, user) ==>
        r == PayNotFound && gastos == old(gastos)
      ensures IsPositivePayment(payment) && Owns(old(gastos), id, user) ==>
        var row := old(gastos)[id];
        match Reconcile(row.valor, row.valorPago, payment.value)
        case Rejected(reason) => r == PayRejected(reason) && gastos == old(gastos)
        case Accepted(np, st) =>
          r == PayAccepted(st, np) && gastos == old(gastos)[id := row.(valorPago := np, status := st)]
      ensures PaidWithinTotal(old(gastos)) ==> PaidWithinTotal(gastos)
    {
      if !IsPositivePayment(payment) {
        return PayRejected(NotPositive);
      }
      if !Owns(gastos, id, user) {
        return PayNotFound;
      }
      var gasto := gastos[id];
      var outcome := Reconcile(gasto.valor, gasto.valorPago, payment.value);
      match outcome {
        case Rejected(reason) =>
          r := PayRejected(reason);
        case Accepted(np, st) =>
          if PaidWithinTotal(gastos) {
            ReconcileKeepsBounds(gasto.valor, gasto.valorPago, payment.value);
          }
          gastos := gastos[id := gasto.(valorPago := np, status := st)];
          r := PayAccepted(st, np);
      }
    }

    /** `PUT /gastos/:id`: replaces description, value and due date of the
        user's row; the amount paid and the status are left as they were. */
    method Update(user: int, id: int, req: UpdateRequest) returns (r: WriteOutcome)
      requires Valid()
      modifies this`gastos
      ensures Valid() && limites == old(limites) && nextId == old(nextId)
      ensures !IsValidUpdate(req) ==> r == WriteRejected && gastos == old(gastos)
      ensures IsValidUpdate(req) && !Owns(old(gastos), id, user) ==>
        r == WriteNotFound && gastos == old(gastos)
      ensures IsValidUpdate(req) && Owns(old(gastos), id, user) ==>
        r == WriteDone && gastos == old(gastos)[id := Edited(old(gastos)[id], req)]
    {
      if !IsValidUpdate(req) {
        return WriteRejected;
      }
      if !Owns(gastos, id, user) {
        return WriteNotFound;
      }
      gastos := gastos[id := Edited(gastos[id], req)];
      return WriteDone;
    }

    /** `DELETE /gastos/:id`. */
    method Delete(user: int, id: int) returns (r: WriteOutcome)
      requires Valid()
      modifies this`gastos
      ensures Valid() && limites == old(limites) && nextId == old(nextId)
      ensures !Owns(old(gastos), id, user) ==> r == WriteNotFound && gastos == old(gastos)
      ensures Owns(old(gastos), id, user) ==> r == WriteDone && gastos == old(gastos) - {id}
      ensures PaidWithinTotal(old(gastos)) ==> PaidWithinTotal(gastos)
    {
      if !Owns(gastos, id, user) {
        return WriteNotFound;
      }
      gastos := gastos - {id};
      return WriteDone;
    }

    /** `POST /limite-gastos`: insert, or on the duplicate key
        `(usuario_id, mes, ano)` overwrite the limit. */
    method UpsertLimit(user: int, req: LimitRequest) returns (r: WriteOutcome)
      requires Valid()
      modifies this`limites
      ensures Valid() && gastos == old(gastos) && nextId == old(nextId)
      ensures !IsValidLimit(req) ==> r == WriteRejected && limites == old(limites)
      ensures IsValidLimit(req) ==>
        r == WriteDone
        && limites == old(limites)[LimitKey(user, req.mes.value, req.ano.value) := req.limite.value]
    {
      if !IsValidLimit(req) {
        return WriteRejected;
      }
      limites := limites[LimitKey(user, req.mes.value, req.ano.value) := req.limite.value];
      return WriteDone;
    }

    /** `GET /limite-gastos`. */
    function GetLimit(user: int, mes: Option<int>, ano: Option<int>): (r: LimitLookup)
      reads this
      ensures r.LimitFound? <==> IsTruthy(mes) && IsTruthy(ano) && LimitKey(user, mes.value, ano.value) in limites
    {
      LookupLimit(limites, user, mes, ano)
    }

    /** `GET /gastos`: the rows of one user. */
    function RowsOf(user: int): (m: map<int, Gasto>)
      reads this
      ensures forall id :: id in m <==> Owns(gastos, id, user)
      ensures forall id :: id in m ==> id in gastos && m[id] == gastos[id]
    {
      map id | id in gastos && gastos[id].usuarioId == user :: gastos[id]
    }
  }
}
