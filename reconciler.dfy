/** The payment reconciliation of `PUT /gastos/pagar/:id`: validating a
    payment against the remaining balance and deriving the new status.
    Amounts are integer cents. */
module Reconciler {
  import opened Wrappers

  /** The column `status ENUM('pendente', 'pago', 'parcialmente pago')`. */
  datatype Status = Pendente | Pago | ParcialmentePago

  function StatusText(s: Status): (t: string)
    ensures t in {"pendente", "pago", "parcialmente pago"}
  {
    match s
    case Pendente => "pendente"
    case Pago => "pago"
    case ParcialmentePago => "parcialmente pago"
  }

  lemma StatusTextInjective(s: Status, u: Status)
    ensures StatusText(s) == StatusText(u) ==> s == u
  {
  }

  datatype Rejection = NotPositive | ExceedsBalance(remaining: int)

  datatype Outcome = Rejected(reason: Rejection) | Accepted(newPaid: int, status: Status)

  /** `!(isNaN(valor_pagamento) || valor_pagamento <= 0)`. */
  predicate IsPositivePayment(p: Option<int>) {
    p.Some? && p.value > 0
  }

  /** The status an expense should carry for the amount paid so far. */
  function DerivedStatus(paid: int, total: int): Status {
    if paid == 0 then Pendente
    else if paid >= total then Pago
    else ParcialmentePago
  }

  /** Applying a payment to an expense of value `valor` of which
      `valorPago` is already paid. */
  function Reconcile(valor: int, valorPago: int, payment: int): (r: Outcome)
    ensures r.Accepted? <==> 0 < payment <= valor - valorPago
    ensures r == Rejected(NotPositive) <==> payment <= 0
    ensures r.Rejected? && payment > 0 ==> r.reason == ExceedsBalance(valor - valorPago)
    ensures r.Accepted? ==> r.newPaid == valorPago + payment && r.status != Pendente
  {
    if payment <= 0 then Rejected(NotPositive)
    else
      var saldoRestante := valor - valorPago;
      if payment > saldoRestante then Rejected(ExceedsBalance(saldoRestante))
      else
        var novoValorPago := valorPago + payment;
        Accepted(novoValorPago, if novoValorPago >= valor then Pago else ParcialmentePago)
  }

  /** An accepted payment keeps `0 <= valor_pago <= valor`, strictly raises
      the amount paid, and yields `pago` exactly when the expense is paid off;
      the status is the one the amount paid calls for. */
  lemma ReconcileKeepsBounds(valor: int, valorPago: int, payment: int)
    requires 0 <= valorPago
    requires Reconcile(valor, valorPago, payment).Accepted?
    ensures var r := Reconcile(valor, valorPago, payment);
      && valorPago < r.newPaid <= valor
      && (r.status == Pago <==> r.newPaid == valor)
      && r.status == DerivedStatus(r.newPaid, valor)
  {
  }

  /** The figures of a worked example: R$ 100, R$ 20 paid. */
  lemma ReconcileExamples()
    ensures Reconcile(10000, 2000, 0) == Rejected(NotPositive)
    ensures Reconcile(10000, 2000, -500) == Rejected(NotPositive)
    ensures Reconcile(10000, 2000, 9000) == Rejected(ExceedsBalance(8000))
    ensures Reconcile(10000, 0, 4000) == Accepted(4000, ParcialmentePago)
    ensures Reconcile(10000, 4000, 6000) == Accepted(10000, Pago)
  {
  }

  /** The state of one expense across successive payments. */
  datatype Account = Account(paid: int, status: Status)

  /** Payments applied one after another; `None` once one is rejected. */
  function ApplyPayments(valor: int, a: Account, ps: seq<int>): Option<Account>
    decreases |ps|
  {
    if ps == [] then Some(a)
    else
      match Reconcile(valor, a.paid, ps[0])
      case Rejected(_) => None
      case Accepted(np, st) => ApplyPayments(valor, Account(np, st), ps[1..])
  }

  function SumPayments(ps: seq<int>): int {
    if ps == [] then 0 else ps[0] + SumPayments(ps[1..])
  }

  /** Positive payments that together do not exceed the balance are all
      accepted; the amount paid grows by their sum, and the expense ends
      `pago` exactly when they settle the balance. */
  lemma {:induction false} PaymentsAccumulate(valor: int, a: Account, ps: seq<int>)
    requires 0 <= a.paid && ps != []
    requires forall k :: 0 <= k < |ps| ==> ps[k] > 0
    requires SumPayments(ps) <= valor - a.paid
    ensures var r := ApplyPayments(valor, a, ps);
      && r.Some?
      && r.value.paid == a.paid + SumPayments(ps)
      && (r.value.status == Pago <==> r.value.paid == valor)
      && r.value.status != Pendente
    decreases |ps|
  {
    var r := Reconcile(valor, a.paid, ps[0]);
    assert SumPayments(ps) == ps[0] + SumPayments(ps[1..]);
    if ps[1..] != [] {
      assert ps[1..][0] > 0;
      assert SumPayments(ps[1..]) > 0 by {
        PositiveSum(ps[1..]);
      }
    }
    ReconcileKeepsBounds(valor, a.paid, ps[0]);
    if ps[1..] != [] {
      PaymentsAccumulate(valor, Account(r.newPaid, r.status), ps[1..]);
    }
  }

  lemma {:induction false} PositiveSum(ps: seq<int>)
    requires ps != []
    requires forall k :: 0 <= k < |ps| ==> ps[k] > 0
    ensures SumPayments(ps) > 0
    decreases |ps|
  {
    if ps[1..] != [] {
      PositiveSum(ps[1..]);
    }
  }

  /** Positive payments that add up to exactly the expense's value settle it. */
  lemma PaymentsSettle(valor: int, ps: seq<int>)
    requires ps != []
    requires forall k :: 0 <= k < |ps| ==> ps[k] > 0
    requires SumPayments(ps) == valor
    ensures ApplyPayments(valor, Account(0, Pendente), ps) == Some(Account(valor, Pago))
  {
    PaymentsAccumulate(valor, Account(0, Pendente), ps);
  }
}
