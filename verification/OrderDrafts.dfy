/**
 The money in draft orders (apps/api/src/orders/order-draft.service.ts, and the same arithmetic in
 apps/api/src/integrations/storefront-order-draft.ts): rows written one by one, and what they always add up to.
 */
module OrderDrafts {
  import opened Wrappers
  import opened Money

  datatype Product = Product(cents: nat, active: bool)

  datatype Line = Line(product: nat, quantity: nat)

  /** A stored line, with the price it was sold at. */
  datatype LineRow = LineRow(order: nat, product: nat, quantity: nat, unitCents: nat, totalCents: int)

  datatype OrderRow = OrderRow(customer: nat, draft: bool, subtotalCents: int)

  datatype Tables = Tables(customers: map<nat, bool>, products: map<nat, Product>, orders: seq<OrderRow>, lines: seq<LineRow>)

  datatype Refusal = CustomerNotFound | ProductNotFound | OrderNotFound | NotDraft | NumericOverflow

  predicate Active(products: map<nat, Product>, product: nat) {
    product in products && products[product].active
  }

  /** The active products among those of the lines. */
  function Found(products: map<nat, Product>, lines: seq<Line>): set<nat> {
    set i | 0 <= i < |lines| && Active(products, lines[i].product) :: lines[i].product
  }

  predicate AllFound(products: map<nat, Product>, lines: seq<Line>) {
    && (forall i | 0 <= i < |lines| :: Active(products, lines[i].product))
    && (forall i, j | 0 <= i < j < |lines| :: lines[i].product != lines[j].product)
  }

  lemma FoundNext(products: map<nat, Product>, lines: seq<Line>, last: Line)
    ensures Found(products, lines + [last])
            == Found(products, lines) + (if Active(products, last.product) then {last.product} else {})
  {
    var more := lines + [last];
    assert more[|lines|] == last;
    forall p | p in Found(products, lines) ensures p in Found(products, more) {
      var i :| 0 <= i < |lines| && Active(products, lines[i].product) && lines[i].product == p;
      assert more[i].product == p;
    }
  }

  lemma AllFoundNext(products: map<nat, Product>, lines: seq<Line>, last: Line)
    requires AllFound(products, lines)
    ensures AllFound(products, lines + [last]) <==> Active(products, last.product) && last.product !in Found(products, lines)
  {
    var more := lines + [last];
    assert more[|lines|] == last;
    if last.product in Found(products, lines) {
      var i :| 0 <= i < |lines| && lines[i].product == last.product;
      assert more[i].product == more[|lines|].product;
    }
  }

  lemma AllFoundBefore(products: map<nat, Product>, lines: seq<Line>, last: Line)
    requires AllFound(products, lines + [last])
    ensures AllFound(products, lines)
  {
    var more := lines + [last];
    assert forall i | 0 <= i < |lines| :: more[i] == lines[i];
  }

  /** Comparing the two counts finds a product that is missing, inactive or repeated. */
  lemma {:induction false} CountsMatch(products: map<nat, Product>, lines: seq<Line>)
    ensures |Found(products, lines)| <= |lines|
    ensures |Found(products, lines)| == |lines| <==> AllFound(products, lines)
  {
    if lines == [] {
      assert Found(products, lines) == {};
    } else {
      var before, last := lines[..|lines| - 1], lines[|lines| - 1];
      assert lines == before + [last];
      CountsMatch(products, before);
      FoundNext(products, before, last);
      if AllFound(products, before) {
        AllFoundNext(products, before, last);
      } else if AllFound(products, lines) {
        AllFoundBefore(products, before, last);
      }
    }
  }

  function PricedLines(products: map<nat, Product>, lines: seq<Line>): seq<Priced>
    requires AllFound(products, lines)
  {
    seq(|lines|, i requires 0 <= i < |lines| => Priced(products[lines[i].product].cents, lines[i].quantity))
  }

  function RowFor(rd: real -> real, products: map<nat, Product>, order: nat, line: Line): LineRow
    requires line.product in products
  {
    var cents := products[line.product].cents;
    LineRow(order, line.product, line.quantity, cents, Fixed2(LineValue(rd, Priced(cents, line.quantity))))
  }

  function Rows(rd: real -> real, products: map<nat, Product>, order: nat, lines: seq<Line>): (rows: seq<LineRow>)
    requires forall i | 0 <= i < |lines| :: Active(products, lines[i].product)
  {
    seq(|lines|, i requires 0 <= i < |lines| =>
      assert Active(products, lines[i].product);
      RowFor(rd, products, order, lines[i]))
  }

  predicate Fits(rows: seq<LineRow>) {
    forall i | 0 <= i < |rows| :: rows[i].totalCents < COLUMN_CENTS
  }

  function Subtotal(rd: real -> real, products: map<nat, Product>, lines: seq<Line>): int
    requires AllFound(products, lines)
  {
    Fixed2(Sum(rd, PricedLines(products, lines)))
  }

  function Created(rd: real -> real, t: Tables, customer: nat, lines: seq<Line>): Result<Tables, Refusal> {
    if customer !in t.customers || !t.customers[customer] then Failure(CustomerNotFound)
    else if !AllFound(t.products, lines) then Failure(ProductNotFound)
    else
      var subtotal, rows := Subtotal(rd, t.products, lines), Rows(rd, t.products, |t.orders|, lines);
      if subtotal >= COLUMN_CENTS || !Fits(rows) then Failure(NumericOverflow)
      else Success(t.(orders := t.orders + [OrderRow(customer, true, subtotal)], lines := t.lines + rows))
  }

  function WithoutOrder(rows: seq<LineRow>, order: nat): seq<LineRow> {
    if rows == [] then []
    else
      var last := rows[|rows| - 1];
      WithoutOrder(rows[..|rows| - 1], order) + (if last.order == order then [] else [last])
  }

  function Updated(rd: real -> real, t: Tables, order: nat, customer: nat, lines: seq<Line>): Result<Tables, Refusal> {
    if order >= |t.orders| then Failure(OrderNotFound)
    else if !t.orders[order].draft then Failure(NotDraft)
    else if customer !in t.customers || !t.customers[customer] || !AllFound(t.products, lines) then Failure(ProductNotFound)
    else
      var subtotal, rows := Subtotal(rd, t.products, lines), Rows(rd, t.products, order, lines);
      if subtotal >= COLUMN_CENTS || !Fits(rows) then Failure(NumericOverflow)
      else Success(t.(orders := t.orders[order := OrderRow(customer, true, subtotal)],
                      lines := WithoutOrder(t.lines, order) + rows))
  }

  // ----- What the tables always add up to -----

  function TotalOf(rows: seq<LineRow>, order: nat): int {
    if rows == [] then 0
    else TotalOf(rows[..|rows| - 1], order) + if rows[|rows| - 1].order == order then rows[|rows| - 1].totalCents else 0
  }

  /** Every line total is unit price times quantity, and every subtotal the sum of its order's line totals. */
  ghost predicate AddsUp(t: Tables) {
    && (forall i | 0 <= i < |t.lines| ::
          t.lines[i].order < |t.orders| && t.lines[i].totalCents == t.lines[i].unitCents * t.lines[i].quantity)
    && (forall o | 0 <= o < |t.orders| :: t.orders[o].subtotalCents == TotalOf(t.lines, o))
  }

  lemma {:induction false} TotalAcross(a: seq<LineRow>, b: seq<LineRow>, order: nat)
    ensures TotalOf(a + b, order) == TotalOf(a, order) + TotalOf(b, order)
  {
    if b == [] {
      assert a + b == a;
    } else {
      assert (a + b)[..|a + b| - 1] == a + b[..|b| - 1];
      TotalAcross(a, b[..|b| - 1], order);
    }
  }

  lemma {:induction false} TotalElsewhere(rows: seq<LineRow>, order: nat)
    requires forall i | 0 <= i < |rows| :: rows[i].order != order
    ensures TotalOf(rows, order) == 0
  {
    if rows != [] {
      TotalElsewhere(rows[..|rows| - 1], order);
    }
  }

  lemma {:induction false} TotalWithout(rows: seq<LineRow>, order: nat, other: nat)
    ensures TotalOf(WithoutOrder(rows, order), other) == if other == order then 0 else TotalOf(rows, other)
  {
    if rows != [] {
      var before, last := WithoutOrder(rows[..|rows| - 1], order), rows[|rows| - 1];
      TotalWithout(rows[..|rows| - 1], order, other);
      TotalAcross(before, if last.order == order then [] else [last], other);
    }
  }

  lemma {:induction false} WithoutOrderSpec(rows: seq<LineRow>, order: nat)
    ensures forall r :: r in WithoutOrder(rows, order) <==> r in rows && r.order != order
  {
    if rows != [] {
      WithoutOrderSpec(rows[..|rows| - 1], order);
      assert rows == rows[..|rows| - 1] + [rows[|rows| - 1]];
    }
  }

  /** The rows of an order whose subtotal fits add up to it, and each is exact. */
  lemma RowsAddUp(rd: real -> real, products: map<nat, Product>, order: nat, lines: seq<Line>)
    requires Rounds(rd) && |lines| <= MAX_LINES && AllFound(products, lines) && Subtotal(rd, products, lines) < COLUMN_CENTS
    ensures var rows := Rows(rd, products, order, lines);
            && TotalOf(rows, order) == Subtotal(rd, products, lines)
            && forall i | 0 <= i < |rows| :: rows[i].order == order && rows[i].totalCents == rows[i].unitCents * rows[i].quantity
  {
    var priced, rows := PricedLines(products, lines), Rows(rd, products, order, lines);
    StoredMoneyIsExact(rd, priced);
    TotalIsExact(rows, priced, order);
  }

  lemma {:induction false} TotalIsExact(rows: seq<LineRow>, priced: seq<Priced>, order: nat)
    requires |rows| == |priced|
    requires forall i | 0 <= i < |rows| :: rows[i].order == order && rows[i].totalCents == priced[i].cents * priced[i].quantity
    ensures TotalOf(rows, order) == Exact(priced)
  {
    if rows != [] {
      TotalIsExact(rows[..|rows| - 1], priced[..|priced| - 1], order);
    }
  }

  /** Creating an order keeps every order's money adding up. */
  lemma CreatedAddsUp(rd: real -> real, t: Tables, customer: nat, lines: seq<Line>)
    requires Rounds(rd) && |lines| <= MAX_LINES && AddsUp(t) && Created(rd, t, customer, lines).Success?
    ensures AddsUp(Created(rd, t, customer, lines).value)
  {
    var after, rows := Created(rd, t, customer, lines).value, Rows(rd, t.products, |t.orders|, lines);
    RowsAddUp(rd, t.products, |t.orders|, lines);
    forall o | 0 <= o < |after.orders| ensures after.orders[o].subtotalCents == TotalOf(after.lines, o) {
      TotalAcross(t.lines, rows, o);
      TotalElsewhere(if o == |t.orders| then t.lines else rows, o);
    }
  }

  /** So does replacing a draft's lines. */
  lemma UpdatedAddsUp(rd: real -> real, t: Tables, order: nat, customer: nat, lines: seq<Line>)
    requires Rounds(rd) && |lines| <= MAX_LINES && AddsUp(t) && Updated(rd, t, order, customer, lines).Success?
    ensures AddsUp(Updated(rd, t, order, customer, lines).value)
  {
    var after, rows := Updated(rd, t, order, customer, lines).value, Rows(rd, t.products, order, lines);
    var kept := WithoutOrder(t.lines, order);
    RowsAddUp(rd, t.products, order, lines);
    forall o | 0 <= o < |after.orders| ensures after.orders[o].subtotalCents == TotalOf(after.lines, o) {
      TotalAcross(kept, rows, o);
      TotalWithout(t.lines, order, o);
      if o != order {
        TotalElsewhere(rows, o);
      }
    }
    WithoutOrderSpec(t.lines, order);
    assert forall i | 0 <= i < |kept| :: kept[i] in kept;
  }

  // ----- What an order consists of -----

  /** `rows` are the lines of an order in their order, each at the current price of its product. */
  ghost predicate RowsOf(t: Tables, rows: seq<LineRow>, order: nat, lines: seq<Line>) {
    && |rows| == |lines|
    && forall i | 0 <= i < |lines| ::
         && Active(t.products, lines[i].product)
         && rows[i] == LineRow(order, lines[i].product, lines[i].quantity, t.products[lines[i].product].cents,
                               t.products[lines[i].product].cents * lines[i].quantity)
  }

  ghost function ExactSubtotal(t: Tables, lines: seq<Line>): nat {
    if lines == [] then 0
    else
      var last := lines[|lines| - 1];
      ExactSubtotal(t, lines[..|lines| - 1])
      + if last.product in t.products then t.products[last.product].cents * last.quantity else 0
  }

  /** The customer is active, and so is every product, each of which is ordered once. */
  ghost predicate Draftable(t: Tables, customer: nat, lines: seq<Line>) {
    && customer in t.customers && t.customers[customer]
    && (forall i | 0 <= i < |lines| :: Active(t.products, lines[i].product))
    && (forall i, j | 0 <= i < j < |lines| :: lines[i].product != lines[j].product)
  }

  lemma {:induction false} ExactIsExact(t: Tables, lines: seq<Line>)
    requires AllFound(t.products, lines)
    ensures Exact(PricedLines(t.products, lines)) == ExactSubtotal(t, lines)
  {
    if lines != [] {
      var front := lines[..|lines| - 1];
      ExactIsExact(t, front);
      assert PricedLines(t.products, lines)[..|lines| - 1] == PricedLines(t.products, front);
      assert Active(t.products, lines[|lines| - 1].product);
    }
  }

  lemma RowsAreRows(rd: real -> real, t: Tables, order: nat, lines: seq<Line>)
    requires Rounds(rd) && |lines| <= MAX_LINES && AllFound(t.products, lines) && Subtotal(rd, t.products, lines) < COLUMN_CENTS
    ensures RowsOf(t, Rows(rd, t.products, order, lines), order, lines)
    ensures Subtotal(rd, t.products, lines) == ExactSubtotal(t, lines)
  {
    var priced := PricedLines(t.products, lines);
    StoredMoneyIsExact(rd, priced);
    ExactIsExact(t, lines);
    forall i | 0 <= i < |lines| ensures Rows(rd, t.products, order, lines)[i].totalCents == priced[i].cents * priced[i].quantity {
      assert Active(t.products, lines[i].product);
    }
  }

  /** What fits is exactly what is worth less than the column can hold, to the cent. */
  lemma FitsIff(rd: real -> real, t: Tables, order: nat, lines: seq<Line>)
    requires Rounds(rd) && |lines| <= MAX_LINES && AllFound(t.products, lines)
    ensures Subtotal(rd, t.products, lines) < COLUMN_CENTS && Fits(Rows(rd, t.products, order, lines))
            <==> ExactSubtotal(t, lines) < COLUMN_CENTS
  {
    var priced := PricedLines(t.products, lines);
    ExactIsExact(t, lines);
    if Exact(priced) < COLUMN_CENTS {
      SubtotalIsExact(rd, priced);
      RowsAreRows(rd, t, order, lines);
      forall i | 0 <= i < |lines| ensures Rows(rd, t.products, order, lines)[i].totalCents < COLUMN_CENTS {
        LineIsPart(priced, i);
      }
    } else if Subtotal(rd, t.products, lines) < COLUMN_CENTS {
      StoredMoneyIsExact(rd, priced);
    }
  }

  /**
   A draft that is created is the last order, for its customer, with a row for each line at the price of that moment
   and the exact subtotal; nothing else changes.
   */
  lemma CreatedLaw(rd: real -> real, t: Tables, customer: nat, lines: seq<Line>)
    requires Rounds(rd) && |lines| <= MAX_LINES
    ensures var r, o := Created(rd, t, customer, lines), |t.orders|;
            && (r.Success? <==> Draftable(t, customer, lines) && ExactSubtotal(t, lines) < COLUMN_CENTS)
            && (r.Success? ==>
                  && |t.lines| <= |r.value.lines| && RowsOf(t, r.value.lines[|t.lines|..], o, lines)
                  && r.value == t.(orders := t.orders + [OrderRow(customer, true, ExactSubtotal(t, lines))],
                                   lines := t.lines + r.value.lines[|t.lines|..]))
            && (r.Failure? && Draftable(t, customer, lines) ==> r == Failure(NumericOverflow))
  {
    if AllFound(t.products, lines) {
      FitsIff(rd, t, |t.orders|, lines);
    }
    if AllFound(t.products, lines) && Subtotal(rd, t.products, lines) < COLUMN_CENTS {
      RowsAreRows(rd, t, |t.orders|, lines);
      var rows := Rows(rd, t.products, |t.orders|, lines);
      assert (t.lines + rows)[|t.lines|..] == rows;
    }
  }

  /** A changed draft keeps its number and loses its old lines; the lines of other orders stay. */
  lemma UpdatedLaw(rd: real -> real, t: Tables, order: nat, customer: nat, lines: seq<Line>)
    requires Rounds(rd) && |lines| <= MAX_LINES
    ensures var r, kept := Updated(rd, t, order, customer, lines), |WithoutOrder(t.lines, order)|;
            && (order >= |t.orders| ==> r == Failure(OrderNotFound))
            && (order < |t.orders| && !t.orders[order].draft ==> r == Failure(NotDraft))
            && (r.Success? <==>
                  && order < |t.orders| && t.orders[order].draft && Draftable(t, customer, lines)
                  && ExactSubtotal(t, lines) < COLUMN_CENTS)
            && (r.Success? ==>
                  && kept <= |r.value.lines| && r.value.lines[..kept] == WithoutOrder(t.lines, order)
                  && RowsOf(t, r.value.lines[kept..], order, lines)
                  && r.value == t.(orders := t.orders[order := OrderRow(customer, true, ExactSubtotal(t, lines))],
                                   lines := r.value.lines))
            && (r.Failure? && order < |t.orders| && t.orders[order].draft && Draftable(t, customer, lines) ==>
                  r == Failure(NumericOverflow))
  {
    if AllFound(t.products, lines) {
      FitsIff(rd, t, order, lines);
    }
    if AllFound(t.products, lines) && Subtotal(rd, t.products, lines) < COLUMN_CENTS {
      RowsAreRows(rd, t, order, lines);
      var kept, rows := WithoutOrder(t.lines, order), Rows(rd, t.products, order, lines);
      assert (kept + rows)[..|kept|] == kept && (kept + rows)[|kept|..] == rows;
    }
  }

  /** What can happen to the tables; a refused command changes nothing. */
  datatype Command =
    | Create(customer: nat, lines: seq<Line>)
    | Update(order: nat, customer: nat, lines: seq<Line>)
    | Confirm(order: nat)
    | EditProduct(product: nat, row: Product)

  function Do(rd: real -> real, t: Tables, command: Command): Tables {
    match command
    case Create(customer, lines) =>
      var r := Created(rd, t, customer, lines);
      if r.Success? then r.value else t
    case Update(order, customer, lines) =>
      var r := Updated(rd, t, order, customer, lines);
      if r.Success? then r.value else t
    case Confirm(order) => if order < |t.orders| then t.(orders := t.orders[order := t.orders[order].(draft := false)]) else t
    case EditProduct(product, row) => t.(products := t.products[product := row])
  }

  function Run(rd: real -> real, t: Tables, commands: seq<Command>): Tables {
    if commands == [] then t else Do(rd, Run(rd, t, commands[..|commands| - 1]), commands[|commands| - 1])
  }

  /** Whatever orders are created and edited, and however prices change in between, the money adds up. */
  lemma {:induction false} AlwaysAddsUp(rd: real -> real, t: Tables, commands: seq<Command>)
    requires Rounds(rd) && AddsUp(t)
    requires forall i | 0 <= i < |commands| && (commands[i].Create? || commands[i].Update?) :: |commands[i].lines| <= MAX_LINES
    ensures AddsUp(Run(rd, t, commands))
  {
    if commands != [] {
      var before, command := Run(rd, t, commands[..|commands| - 1]), commands[|commands| - 1];
      AlwaysAddsUp(rd, t, commands[..|commands| - 1]);
      match command
      case Create(customer, lines) =>
        if Created(rd, before, customer, lines).Success? {
          CreatedAddsUp(rd, before, customer, lines);
        }
      case Update(order, customer, lines) =>
        if Updated(rd, before, order, customer, lines).Success? {
          UpdatedAddsUp(rd, before, order, customer, lines);
        }
      case Confirm(_) =>
      case EditProduct(_, _) =>
    }
  }

  // ----- The tables themselves -----

  class DraftTables {
    const rd: real -> real
    var customers: map<nat, bool>
    var products: map<nat, Product>
    var orders: seq<OrderRow>
    var lines: seq<LineRow>

    function State(): Tables
      reads this
    {
      Tables(customers, products, orders, lines)
    }

    method CreateDraftOrder(customer: nat, input: seq<Line>) returns (r: Result<nat, Refusal>)
      modifies this`orders, this`lines
      ensures match Created(rd, old(State()), customer, input)
              case Success(after) => r == Success(old(|orders|)) && State() == after
              case Failure(refusal) => r == Failure(refusal) && State() == old(State())
    {
      var before := State();
      if customer !in customers || !customers[customer] {
        return Failure(CustomerNotFound);
      }
      CountsMatch(products, input);
      if |Found(products, input)| != |input| {
        return Failure(ProductNotFound);
      }
      var subtotal := Fixed2(Sum(rd, PricedLines(products, input)));
      if subtotal >= COLUMN_CENTS {
        return Failure(NumericOverflow);
      }
      var order := |orders|;
      orders := orders + [OrderRow(customer, true, subtotal)];
      var done := CreateDraftLines(order, input);
      if !done {
        orders, lines := before.orders, before.lines;
        return Failure(NumericOverflow);
      }
      return Success(order);
    }

    method UpdateDraft(order: nat, customer: nat, input: seq<Line>) returns (r: Result<(), Refusal>)
      modifies this`orders, this`lines
      ensures match Updated(rd, old(State()), order, customer, input)
              case Success(after) => r.Success? && State() == after
              case Failure(refusal) => r == Failure(refusal) && State() == old(State())
    {
      var before := State();
      if order >= |orders| {
        return Failure(OrderNotFound);
      }
      if !orders[order].draft {
        return Failure(NotDraft);
      }
      lines := WithoutOrder(lines, order);
      CountsMatch(products, input);
      if customer !in customers || !customers[customer] || |Found(products, input)| != |input| {
        lines := before.lines;
        return Failure(ProductNotFound);
      }
      var subtotal := Fixed2(Sum(rd, PricedLines(products, input)));
      var done := CreateDraftLines(order, input);
      if !done || subtotal >= COLUMN_CENTS {
        lines := before.lines;
        return Failure(NumericOverflow);
      }
      orders := orders[order := OrderRow(customer, true, subtotal)];
      return Success(());
    }

    /** Writes the lines one by one until one does not fit its column. */
    method CreateDraftLines(order: nat, input: seq<Line>) returns (done: bool)
      requires AllFound(products, input)
      modifies this`lines
      ensures done <==> Fits(Rows(rd, products, order, input))
      ensures done ==> lines == old(lines) + Rows(rd, products, order, input)
    {
      ghost var rows := Rows(rd, products, order, input);
      ghost var before := lines;
      for i := 0 to |input|
        modifies this`lines
        invariant lines == before + rows[..i]
        invariant Fits(rows[..i])
      {
        var cents := products[input[i].product].cents;
        var total := Fixed2(LineValue(rd, Priced(cents, input[i].quantity)));
        assert rows[i].totalCents == total && rows[..i + 1] == rows[..i] + [rows[i]];
        if total >= COLUMN_CENTS {
          return false;
        }
        lines := lines + [LineRow(order, input[i].product, input[i].quantity, cents, total)];
      }
      assert rows[..|input|] == rows;
      return true;
    }
  }
}
