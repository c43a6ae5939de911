/** The expense page (`public/script.js`): the month filter, the running
    total, the budget alert, the labels shown per expense, the payment
    dialog and the checks the forms make before posting. Amounts are
    integer cents; the DOM, `fetch` and the clock are inputs. */
module Dashboard {
  import opened Wrappers
  import opened Calendar
  import Reconciler
  import Store
  import Installments

  /** An expense as the page receives it from `GET /gastos`. */
  datatype ClientExpense = ClientExpense(
    id: int,
    descricao: string,
    valor: int,
    valorPago: int,
    status: string,
    vencimento: Date)

  /** The JSON the backend serialises for a row. */
  function FromRow(id: int, g: Store.Gasto): (e: ClientExpense)
    ensures e.id == id && e.valor == g.valor && e.valorPago == g.valorPago
    ensures e.status == Reconciler.StatusText(g.status)
  {
    ClientExpense(id, g.descricao, g.valor, g.valorPago, Reconciler.StatusText(g.status), g.vencimento)
  }

  /** The month buttons: `'todos'` or a month number. */
  datatype Selection = AllMonths | Month(m: int)

  /** The budget alert: hidden, a warning with the excess, or the ok state
      with what is left. */
  datatype Alert = Hidden | Warning(excess: int) | WithinLimit(remaining: int)

  /** `verificarLimite(total)` against `limiteMensal`. */
  function VerificarLimite(limiteMensal: int, total: int): (a: Alert)
    ensures a.Warning? <==> limiteMensal > 0 && total > limiteMensal
    ensures a.Warning? ==> a.excess > 0 && total == limiteMensal + a.excess
    ensures a.WithinLimit? <==> limiteMensal > 0 && total <= limiteMensal
    ensures a.WithinLimit? ==> a.remaining >= 0 && total + a.remaining == limiteMensal
    ensures a.Hidden? <==> limiteMensal <= 0
  {
    if limiteMensal > 0 && total > limiteMensal then Warning(total - limiteMensal)
    else if limiteMensal > 0 then WithinLimit(limiteMensal - total)
    else Hidden
  }

  /** The badge text for a status string. */
  function StatusLabel(status: string): (badge: string)
    ensures badge in {"Pago", "Parcialmente Pago", "Pendente"}
  {
    if status == "pago" then "Pago"
    else if status == "parcialmente pago" then "Parcialmente Pago"
    else "Pendente"
  }

  /** Each status the backend stores gets its own label; any other text
      reads as pending. */
  lemma LabelOfStatus(s: Reconciler.Status, other: string)
    ensures StatusLabel(Reconciler.StatusText(s)) ==
      match s
      case Pago => "Pago"
      case ParcialmentePago => "Parcialmente Pago"
      case Pendente => "Pendente"
    ensures other != "pago" && other != "parcialmente pago" ==> StatusLabel(other) == "Pendente"
  {
  }

  /** A moment in local time: a date and the milliseconds since its
      midnight. */
  datatype Instant = Instant(date: Date, millis: int)

  predicate InstantBefore(a: Instant, b: Instant) {
    Before(a.date, b.date) || (a.date == b.date && a.millis < b.millis)
  }

  /** `new Date(gasto.vencimento) < new Date() && gasto.status !== 'pago'`:
      the due date is read as its midnight. */
  predicate IsOverdue(e: ClientExpense, now: Instant) {
    InstantBefore(Instant(e.vencimento, 0), now) && e.status != "pago"
  }

  /** An unpaid expense is overdue from the first moment of its due day on;
      a paid one or one due later never is. */
  lemma OverdueCases(e: ClientExpense, now: Instant)
    requires now.millis >= 0
    ensures e.status == "pago" ==> !IsOverdue(e, now)
    ensures Before(now.date, e.vencimento) ==> !IsOverdue(e, now)
    ensures e.status != "pago" && Before(e.vencimento, now.date) ==> IsOverdue(e, now)
    ensures e.vencimento == now.date ==>
      (IsOverdue(e, now) <==> e.status != "pago" && now.millis > 0)
  {
    if Before(now.date, e.vencimento) {
      BeforeIrreflexive(now.date);
      if Before(e.vencimento, now.date) {
        BeforeTransitive(now.date, e.vencimento, now.date);
      }
    }
  }

  /** The balance shown in the payment dialog. */
  function RemainingBalance(e: ClientExpense): int {
    e.valor - e.valorPago
  }

  /** The balance the dialog shows is exactly the largest payment the
      backend accepts for that row. */
  lemma DialogBalanceBoundsPayment(id: int, g: Store.Gasto, p: int)
    ensures Reconciler.Reconcile(g.valor, g.valorPago, p).Accepted?
        <==> 0 < p <= RemainingBalance(FromRow(id, g))
  {
  }

  /** `gastosCache.find(g => g.id === id)`: the first expense with that id. */
  function FindById(cache: seq<ClientExpense>, id: int): (r: Option<ClientExpense>)
    ensures r.None? <==> forall k :: 0 <= k < |cache| ==> cache[k].id != id
    ensures r.Some? ==> exists k :: (0 <= k < |cache| && cache[k] == r.value
      && r.value.id == id && forall j :: 0 <= j < k ==> cache[j].id != id)
  {
    if cache == [] then None
    else if cache[0].id == id then Some(cache[0])
    else
      var r := FindById(cache[1..], id);
      assert forall k :: 1 <= k < |cache| ==> cache[k] == cache[1..][k - 1];
      r
  }

  /** The payment dialog for an id: the remaining balance of the cached
      expense, or nothing when the id is not cached. */
  function PaymentDialog(cache: seq<ClientExpense>, id: int): (r: Option<int>)
    ensures r.Some? <==> exists k :: 0 <= k < |cache| && cache[k].id == id
    ensures r.Some? ==> r == Some(RemainingBalance(FindById(cache, id).value))
  {
    match FindById(cache, id)
    case None => None
    case Some(e) => Some(RemainingBalance(e))
  }

  /** The filter for a month button: due in month `m` of year `ano`. */
  predicate InMonth(e: ClientExpense, m: int, ano: int) {
    e.vencimento.month == m && e.vencimento.year == ano
  }

  function FilterMonth(cache: seq<ClientExpense>, m: int, ano: int): seq<ClientExpense> {
    if cache == [] then []
    else (if InMonth(cache[0], m, ano) then [cache[0]] else []) + FilterMonth(cache[1..], m, ano)
  }

  /** `gastosFiltrados`: the whole cache for `'todos'`, else the expenses of
      the chosen month of `anoAtual`. */
  function Filter(cache: seq<ClientExpense>, sel: Selection, anoAtual: int): seq<ClientExpense> {
    match sel
    case AllMonths => cache
    case Month(m) => FilterMonth(cache, m, anoAtual)
  }

  /** The filter keeps exactly the expenses of the chosen month. */
  lemma {:induction false} FilterMembership(cache: seq<ClientExpense>, m: int, ano: int, e: ClientExpense)
    ensures e in FilterMonth(cache, m, ano) <==> e in cache && InMonth(e, m, ano)
  {
    if cache != [] {
      FilterMembership(cache[1..], m, ano, e);
      assert cache == [cache[0]] + cache[1..];
    }
  }

  /** The filter preserves order: filtering a concatenation concatenates the
      filtered parts. */
  lemma {:induction false} FilterAppend(s: seq<ClientExpense>, t: seq<ClientExpense>, m: int, ano: int)
    ensures FilterMonth(s + t, m, ano) == FilterMonth(s, m, ano) + FilterMonth(t, m, ano)
  {
    if s != [] {
      assert (s + t)[1..] == s[1..] + t;
      FilterAppend(s[1..], t, m, ano);
    } else {
      assert s + t == t;
    }
  }

  /** With `'todos'` the list is the whole cache; filtering twice changes
      nothing. */
  lemma {:induction false} FilterIdempotent(cache: seq<ClientExpense>, sel: Selection, ano: int)
    ensures Filter(cache, AllMonths, ano) == cache
    ensures Filter(Filter(cache, sel, ano), sel, ano) == Filter(cache, sel, ano)
  {
    if sel.Month? && cache != [] {
      var m := sel.m;
      FilterIdempotent(cache[1..], sel, ano);
      var head := if InMonth(cache[0], m, ano) then [cache[0]] else [];
      FilterAppend(head, FilterMonth(cache[1..], m, ano), m, ano);
      assert FilterMonth(head, m, ano) == head by {
        if head != [] {
          assert head[1..] == [];
        }
      }
    }
  }

  /** The sum of `valor` over a list. */
  function Total(list: seq<ClientExpense>): int {
    if list == [] then 0 else Total(list[..|list| - 1]) + list[|list| - 1].valor
  }

  lemma {:induction false} TotalAppend(s: seq<ClientExpense>, t: seq<ClientExpense>)
    ensures Total(s + t) == Total(s) + Total(t)
  {
    if t == [] {
      assert s + t == s;
    } else {
      assert (s + t)[..|s + t| - 1] == s + t[..|t| - 1];
      TotalAppend(s, t[..|t| - 1]);
    }
  }

  /** The month totals of a year's list add up in order: the total of the
      cache is the total of its first part plus that of the rest, filter by
      filter. */
  lemma TotalOfFilteredAppend(s: seq<ClientExpense>, t: seq<ClientExpense>, sel: Selection, ano: int)
    ensures Total(Filter(s + t, sel, ano)) == Total(Filter(s, sel, ano)) + Total(Filter(t, sel, ano))
  {
    if sel.Month? {
      FilterAppend(s, t, sel.m, ano);
    }
    TotalAppend(Filter(s, sel, ano), Filter(t, sel, ano));
  }

  /** What one list entry shows. */
  datatype Item = Item(id: int, descricao: string, badge: string, overdue: bool, valor: int, valorPago: int)

  function ItemOf(e: ClientExpense, now: Instant): Item {
    Item(e.id, e.descricao, StatusLabel(e.status), IsOverdue(e, now), e.valor, e.valorPago)
  }

  /** The `forEach` of `carregarGastos`: one entry per expense, in order, and
      the running total. */
  method RenderList(list: seq<ClientExpense>, now: Instant) returns (items: seq<Item>, total: int)
    ensures |items| == |list|
    ensures forall k :: 0 <= k < |list| ==> items[k] == ItemOf(list[k], now)
    ensures total == Total(list)
  {
    items := [];
    total := 0;
    var i := 0;
    while i < |list|
      invariant 0 <= i <= |list|
      invariant |items| == i
      invariant forall k :: 0 <= k < i ==> items[k] == ItemOf(list[k], now)
      invariant total == Total(list[..i])
    {
      assert list[..i + 1][..i] == list[..i];
      items := items + [ItemOf(list[i], now)];
      total := total + list[i].valor;
      i := i + 1;
    }
    assert list[..i] == list;
  }

  /** What the page shows after loading. */
  datatype View = View(items: seq<Item>, total: int, alert: Alert)

  /** The answer to `GET /limite-gastos`: a limit, an error status, or no
      answer at all. */
  datatype LimitResponse = LimitOk(limite: int) | LimitNotOk | LimitUnreachable

  /** The module-level state of the page. */
  class Page {
    var gastosCache: seq<ClientExpense>
    var limiteMensal: int
    var mesAtual: Selection
    var anoAtual: int

    /** The page opens on the current month and year. */
    constructor (today: Date)
      ensures gastosCache == [] && limiteMensal == 0
      ensures mesAtual == Month(today.month) && anoAtual == today.year
    {
      gastosCache := [];
      limiteMensal := 0;
      mesAtual := Month(today.month);
      anoAtual := today.year;
    }

    /** `carregarLimite`: no limit for `'todos'`, the fetched one (0 when
        none is stored), unchanged when the request fails. */
    method CarregarLimite(resp: LimitResponse)
      modifies this`limiteMensal
      ensures mesAtual == AllMonths ==> limiteMensal == 0
      ensures mesAtual != AllMonths ==>
        limiteMensal == match resp
          case LimitOk(v) => v
          case LimitNotOk => 0
          case LimitUnreachable => old(limiteMensal)
    {
      if mesAtual == AllMonths {
        limiteMensal := 0;
        return;
      }
      match resp {
        case LimitOk(v) => limiteMensal := v;
        case LimitNotOk => limiteMensal := 0;
        case LimitUnreachable =>
      }
    }

    /** `carregarGastos(mesSelecionado)`: remembers the selection and the
        year, reloads the limit, then replaces the cache with the fetched
        list and shows its filtered entries, their total and the alert. A
        failed fetch leaves the cache as it was and shows nothing new. */
    method CarregarGastos(sel: Selection, currentYear: int, limitResp: LimitResponse,
                          fetched: Option<seq<ClientExpense>>, now: Instant) returns (view: Option<View>)
      modifies this
      ensures mesAtual == sel && anoAtual == currentYear
      ensures sel == AllMonths ==> limiteMensal == 0
      ensures sel != AllMonths ==>
        limiteMensal == match limitResp
          case LimitOk(v) => v
          case LimitNotOk => 0
          case LimitUnreachable => old(limiteMensal)
      ensures fetched.None? ==> view.None? && gastosCache == old(gastosCache)
      ensures fetched.Some? ==>
        var shown := Filter(fetched.value, sel, currentYear);
        && gastosCache == fetched.value
        && view.Some?
        && view.value.total == Total(shown)
        && |view.value.items| == |shown|
        && (forall k :: 0 <= k < |shown| ==> view.value.items[k] == ItemOf(shown[k], now))
        && view.value.alert == (if sel == AllMonths then Hidden else VerificarLimite(limiteMensal, Total(shown)))
    {
      mesAtual := sel;
      anoAtual := currentYear;
      CarregarLimite(limitResp);
      if fetched.None? {
        return None;
      }
      gastosCache := fetched.value;
      var gastosFiltrados := Filter(gastosCache, sel, anoAtual);
      var items, total := RenderList(gastosFiltrados, now);
      var alert := if sel != AllMonths then VerificarLimite(limiteMensal, total) else Hidden;
      view := Some(View(items, total, alert));
    }
  }

  /** What the limit form does with a submission. */
  datatype LimitSubmission = LimitInvalid | LimitNeedsMonth | LimitPost(limite: int, mes: int, ano: int)

  /** The limit form: a NaN or negative value is refused first, then any
      submission while `'todos'` is selected; otherwise the limit is posted
      for the selected month and year. */
  function SubmitLimitForm(novoLimite: Option<int>, mesAtual: Selection, anoAtual: int): (r: LimitSubmission)
    ensures r == LimitInvalid <==> novoLimite.None? || novoLimite.value < 0
    ensures r == LimitNeedsMonth <==> novoLimite.Some? && novoLimite.value >= 0 && mesAtual == AllMonths
    ensures r.LimitPost? ==> mesAtual == Month(r.mes) && r.ano == anoAtual && novoLimite == Some(r.limite)
  {
    if novoLimite.None? || novoLimite.value < 0 then LimitInvalid
    else if mesAtual == AllMonths then LimitNeedsMonth
    else LimitPost(novoLimite.value, mesAtual.m, anoAtual)
  }

  /** What the form posts the backend accepts whenever the month and year
      are not 0, and the stored limit is the one entered. */
  lemma LimitFormAgreesWithBackend(novoLimite: Option<int>, mesAtual: Selection, anoAtual: int)
    requires SubmitLimitForm(novoLimite, mesAtual, anoAtual).LimitPost?
    ensures var p := SubmitLimitForm(novoLimite, mesAtual, anoAtual);
      var req := Store.LimitRequest(Some(p.limite), Some(p.mes), Some(p.ano));
      Store.IsValidLimit(req) <==> p.mes != 0 && p.ano != 0
  {
  }

  /** The white space and line terminators `String.prototype.trim` removes. */
  predicate IsSpace(c: char) {
    c == '\t' || c == '\n' || c == '\U{000B}' || c == '\U{000C}' || c == '\r' || c == ' '
    || c == '\U{00A0}' || c == '\U{1680}' || ('\U{2000}' <= c <= '\U{200A}')
    || c == '\U{2028}' || c == '\U{2029}' || c == '\U{202F}' || c == '\U{205F}'
    || c == '\U{3000}' || c == '\U{FEFF}'
  }

  function TrimStart(s: string): (r: string)
    ensures |r| <= |s| && r == s[|s| - |r|..]
  {
    if s != [] && IsSpace(s[0]) then TrimStart(s[1..]) else s
  }

  /** `TrimStart` cuts white space only, up to the first other character. */
  lemma {:induction false} TrimStartSpaces(s: string)
    ensures var r := TrimStart(s);
      && (forall k :: 0 <= k < |s| - |r| ==> IsSpace(s[k]))
      && (r != [] ==> !IsSpace(r[0]))
  {
    if s != [] && IsSpace(s[0]) {
      TrimStartSpaces(s[1..]);
      var r := TrimStart(s);
      forall k | 1 <= k < |s| - |r|
        ensures IsSpace(s[k])
      {
        assert s[k] == s[1..][k - 1];
      }
    }
  }

  function TrimEnd(s: string): (r: string)
    ensures |r| <= |s| && r == s[..|r|]
  {
    if s != [] && IsSpace(s[|s| - 1]) then TrimEnd(s[..|s| - 1]) else s
  }

  /** `TrimEnd` cuts white space only, back to the last other character. */
  lemma {:induction false} TrimEndSpaces(s: string)
    ensures var r := TrimEnd(s);
      && (forall k :: |r| <= k < |s| ==> IsSpace(s[k]))
      && (r != [] ==> !IsSpace(r[|r| - 1]))
  {
    if s != [] && IsSpace(s[|s| - 1]) {
      var u := s[..|s| - 1];
      TrimEndSpaces(u);
      var r := TrimEnd(s);
      forall k | |r| <= k < |u|
        ensures IsSpace(s[k])
      {
        assert s[k] == u[k];
      }
    }
  }

  /** `r` is the slice of `s` starting at `i`, with only white space
      before and after it. */
  predicate SpaceAround(s: string, r: string, i: int) {
    && 0 <= i <= |s| - |r| && r == s[i..i + |r|]
    && (forall k :: 0 <= k < i ==> IsSpace(s[k]))
    && (forall k :: i + |r| <= k < |s| ==> IsSpace(s[k]))
  }

  /** `s.trim()`: a slice of `s` with only white space cut off either end. */
  function Trim(s: string): (r: string)
    ensures exists i :: SpaceAround(s, r, i)
    ensures r != [] ==> !IsSpace(r[0]) && !IsSpace(r[|r| - 1])
  {
    var t := TrimStart(s);
    var r := TrimEnd(t);
    TrimStartSpaces(s);
    TrimEndSpaces(t);
    TrimWitness(s, t, r, |s| - |t|);
    assert r != [] ==> r[0] == t[0];
    r
  }

  /** Cutting `i` characters of white space off the front of `s` and then
      white space off the back of what is left leaves the slice
      `s[i..i + |r|]`, with only white space outside it. */
  lemma TrimWitness(s: string, t: string, r: string, i: int)
    requires 0 <= i <= |s| && t == s[i..] && |r| <= |t| && r == t[..|r|]
    requires forall k :: 0 <= k < i ==> IsSpace(s[k])
    requires forall k :: |r| <= k < |t| ==> IsSpace(t[k])
    ensures SpaceAround(s, r, i)
  {
    var j := i + |r|;
    assert r == s[i..j];
    forall k | j <= k < |s|
      ensures IsSpace(s[k])
    {
      assert s[k] == t[k - i];
    }
  }

  /** What the add and edit forms do with a submission. */
  datatype ExpenseSubmission = ExpenseInvalid | ExpensePost(descricao: string, valor: int, vencimento: Date)

  /** The add and edit forms: a trimmed description, a positive value and a
      due date are required; `vencimento` is `None` when the field is
      empty. */
  function SubmitExpenseForm(descricao: string, valor: Option<int>, vencimento: Option<Date>): (r: ExpenseSubmission)
    ensures r.ExpensePost? <==> Trim(descricao) != [] && valor.Some? && valor.value > 0 && vencimento.Some?
    ensures r.ExpensePost? ==>
      r.descricao == Trim(descricao) && Some(r.valor) == valor && Some(r.vencimento) == vencimento
  {
    var d := Trim(descricao);
    if d == [] || valor.None? || valor.value <= 0 || vencimento.None? then ExpenseInvalid
    else ExpensePost(d, valor.value, vencimento.value)
  }

  /** The add form posts `{descricao, valor, vencimento}`, but `POST /gastos`
      needs `dia`, `mes` and `ano`: whatever the form posts is refused. The
      edit form posts the same fields to `PUT /gastos/:id`, which accepts
      them. */
  lemma ExpenseFormAgainstBackend(descricao: string, valor: Option<int>, vencimento: Option<Date>)
    requires SubmitExpenseForm(descricao, valor, vencimento).ExpensePost?
    ensures var p := SubmitExpenseForm(descricao, valor, vencimento);
      && !Installments.IsValidCreate(Installments.CreateRequest(p.descricao, Some(p.valor), None, None, None, None))
      && Store.IsValidUpdate(Store.UpdateRequest(p.descricao, Some(p.valor), Some(p.vencimento)))
  {
  }
}
