/**
 Webhook deliveries of one workspace: each external delivery id becomes at most one sales order, however
 often the webhook arrives, the queue retries or an operator retries by hand.
 */
module Deliveries {
  import opened Wrappers
  import opened Idempotency

  /** The first webhook attempt, one queued attempt and the queue's five retries. */
  const MAX_AUTOMATIC_DELIVERY_ATTEMPTS: nat := 7

  datatype Item = Item(sku: nat, quantity: nat)

  datatype Payload = Payload(email: Option<nat>, items: seq<Item>)

  datatype DeliveryStatus = PROCESSING | SUCCEEDED | FAILED

  datatype Delivery = Delivery(payload: Payload, status: DeliveryStatus, attempts: nat, order: Option<nat>)

  datatype Customer = Customer(email: Option<nat>, active: bool)

  /** `delivery` is the external delivery id the order was created for; money is in cents. */
  datatype SalesOrder = SalesOrder(delivery: nat, customer: nat, subtotal: nat)

  datatype OrderLine = OrderLine(order: nat, sku: nat, quantity: nat, unitPrice: nat)

  datatype Audit = Created(order: nat) | Retried(delivery: nat, order: nat)

  /** The rows a storefront order writes; `transitions` holds the order of each row that records a new draft. */
  datatype Shop = Shop(
    customers: seq<Customer>,
    orders: seq<SalesOrder>,
    lines: seq<OrderLine>,
    transitions: seq<nat>,
    audits: seq<Audit>)

  datatype Answer = Answer(duplicate: bool, status: DeliveryStatus, order: Option<nat>)

  datatype Refusal = DeliveryNotFound | KeyReusedForOtherPayload

  /** Deliveries are keyed by their external id, which the table keeps unique. `catalogue` prices the active products. */
  datatype State = State(
    records: map<nat, Record<Payload, Answer>>,
    deliveries: map<nat, Delivery>,
    shop: Shop,
    catalogue: map<nat, nat>)

  predicate Orderable(catalogue: map<nat, nat>, p: Payload) {
    && (forall i, j | 0 <= i < j < |p.items| :: p.items[i].sku != p.items[j].sku)
    && (forall i | 0 <= i < |p.items| :: p.items[i].sku in catalogue)
  }

  /** The index of the first active customer with `email`, or the next free one. */
  function CustomerFor(customers: seq<Customer>, email: Option<nat>): (i: nat)
    ensures i <= |customers|
    ensures i < |customers| ==> email.Some? && customers[i] == Customer(email, true)
    ensures i == |customers| && email.Some? ==> Customer(email, true) !in customers
    ensures forall j | 0 <= j < i && email.Some? :: customers[j] != Customer(email, true)
  {
    if email.None? || customers == [] then |customers|
    else if customers[0] == Customer(email, true) then 0
    else 1 + CustomerFor(customers[1..], email)
  }

  function LinesFor(order: nat, items: seq<Item>, catalogue: map<nat, nat>): (lines: seq<OrderLine>)
    requires forall i | 0 <= i < |items| :: items[i].sku in catalogue
    ensures |lines| == |items|
    ensures forall i | 0 <= i < |items| ::
              lines[i] == OrderLine(order, items[i].sku, items[i].quantity, catalogue[items[i].sku])
  {
    seq(|items|, i requires 0 <= i < |items| => OrderLine(order, items[i].sku, items[i].quantity, catalogue[items[i].sku]))
  }

  function Subtotal(items: seq<Item>, catalogue: map<nat, nat>): nat
    requires forall i | 0 <= i < |items| :: items[i].sku in catalogue
  {
    if items == [] then 0
    else
      var last := items[|items| - 1];
      Subtotal(items[..|items| - 1], catalogue) + catalogue[last.sku] * last.quantity
  }

  /** The rows after a storefront order for delivery `id` was created in full. */
  function Ordered(shop: Shop, id: nat, p: Payload, catalogue: map<nat, nat>): Shop
    requires Orderable(catalogue, p)
  {
    var customer, order := CustomerFor(shop.customers, p.email), |shop.orders|;
    Shop(if customer < |shop.customers| then shop.customers else shop.customers + [Customer(p.email, true)],
         shop.orders + [SalesOrder(id, customer, Subtotal(p.items, catalogue))],
         shop.lines + LinesFor(order, p.items, catalogue),
         shop.transitions + [order],
         shop.audits + [Created(order)])
  }

  function Audited(shop: Shop, audit: Audit): Shop {
    shop.(audits := shop.audits + [audit])
  }

  /** Whether an attempt succeeds; `fault` stands for any statement of it failing. */
  predicate AttemptSucceeds(s: State, p: Payload, fault: bool) {
    Orderable(s.catalogue, p) && !fault
  }

  /**
   One attempt at delivery `id`: all rows, the link to the order and, for a retry, its audit row, or the attempt
   count alone.
   */
  function Attempted(s: State, id: nat, d: Delivery, retry: bool, fault: bool): State {
    if AttemptSucceeds(s, d.payload, fault) then
      var order, shop := |s.shop.orders|, Ordered(s.shop, id, d.payload, s.catalogue);
      s.(deliveries := s.deliveries[id := d.(status := SUCCEEDED, order := Some(order))],
         shop := if retry then Audited(shop, Retried(id, order)) else shop)
    else s.(deliveries := s.deliveries[id := d.(status := FAILED)])
  }

  /** The row is marked as being processed before the attempt, which overwrites the mark either way. */
  lemma MarkIsOverwritten(s: State, id: nat, d: Delivery, retry: bool, fault: bool)
    ensures var marked := d.(status := PROCESSING);
            Attempted(s.(deliveries := s.deliveries[id := marked]), id, marked, retry, fault) == Attempted(s, id, d, retry, fault)
  {
    var marked := d.(status := PROCESSING);
    var failed, linked := d.(status := FAILED), d.(status := SUCCEEDED, order := Some(|s.shop.orders|));
    assert s.deliveries[id := marked][id := failed] == s.deliveries[id := failed];
    assert s.deliveries[id := marked][id := linked] == s.deliveries[id := linked];
  }

  /** retryDeliveryTransaction, for the queue with an attempt limit and by hand without one. */
  function Retry(s: State, id: nat, maxAttempts: Option<nat>, fault: bool): (State, Result<Answer, Refusal>) {
    if id !in s.deliveries then (s, Failure(DeliveryNotFound))
    else
      var d := s.deliveries[id];
      if d.status == SUCCEEDED then (s, Success(Answer(true, SUCCEEDED, d.order)))
      else if maxAttempts.Some? && d.attempts >= maxAttempts.value then (s, Success(Answer(false, FAILED, None)))
      else
        var after := Attempted(s, id, d.(attempts := d.attempts + 1), true, fault);
        (after, Success(Answer(false, after.deliveries[id].status, after.deliveries[id].order)))
  }

  /** The body of the webhook's work: a known delivery id is a duplicate, a new one is attempted once. */
  function Worked(s: State, id: nat, p: Payload, fault: bool): (State, Answer) {
    if id in s.deliveries then (s, Answer(true, s.deliveries[id].status, s.deliveries[id].order))
    else
      var after := Attempted(s, id, Delivery(p, PROCESSING, 1, None), false, fault);
      (after, Answer(false, after.deliveries[id].status, after.deliveries[id].order))
  }

  /** What the caller of the webhook is told: a stored answer counts as a duplicate. */
  function Reply(outcome: Outcome<Answer>): Result<Answer, Refusal> {
    match outcome
    case Done(answer) => Success(answer)
    case Replayed(answer) => Success(answer.(duplicate := true))
    case _ => Failure(KeyReusedForOtherPayload)
  }

  /** processExternalDelivery under its idempotency key. */
  function Received(s: State, id: nat, p: Payload, start: int, end: int, fault: bool): (State, Result<Answer, Refusal>) {
    var (after, answer) := Worked(s, id, p, fault);
    var records := RecordsAfter(s.records, id, p, Some(answer), start, end);
    var outcome := OutcomeOf(s.records, id, p, Some(answer), start);
    (if outcome.Done? then after.(records := records) else s.(records := records), Reply(outcome))
  }

  // ----- The transactions as they are executed -----

  /** How many statements an attempt makes after its savepoint, and whether the one that fails is among them. */
  predicate Fault(p: Payload, retry: bool, failAt: Option<nat>) {
    failAt.Some? && failAt.value < |p.items| + if retry then 6 else 5
  }

  class DeliveryTables {
    var records: map<nat, Record<Payload, Answer>>
    var deliveries: map<nat, Delivery>
    var customers: seq<Customer>
    var orders: seq<SalesOrder>
    var lines: seq<OrderLine>
    var transitions: seq<nat>
    var audits: seq<Audit>
    var catalogue: map<nat, nat>

    function Rows(): Shop
      reads this
    {
      Shop(customers, orders, lines, transitions, audits)
    }

    function Now(): State
      reads this
    {
      State(records, deliveries, Rows(), catalogue)
    }

    method PriceOf(items: seq<Item>) returns (subtotal: nat)
      requires forall i | 0 <= i < |items| :: items[i].sku in catalogue
      ensures subtotal == Subtotal(items, catalogue)
    {
      subtotal := 0;
      for i := 0 to |items|
        invariant subtotal == Subtotal(items[..i], catalogue)
      {
        assert items[..i + 1][..i] == items[..i];
        subtotal := subtotal + catalogue[items[i].sku] * items[i].quantity;
      }
      assert items[..|items|] == items;
    }

    method CreateLines(order: nat, items: seq<Item>, failAt: Option<nat>) returns (ok: bool)
      requires forall i | 0 <= i < |items| :: items[i].sku in catalogue
      requires failAt.Some? ==> failAt.value >= 2
      modifies this`lines
      ensures ok <==> !(failAt.Some? && failAt.value < 2 + |items|)
      ensures ok ==> lines == old(lines) + LinesFor(order, items, catalogue)
    {
      ghost var before := lines;
      for i := 0 to |items|
        modifies this`lines
        invariant lines == before + LinesFor(order, items, catalogue)[..i]
        invariant failAt.Some? ==> failAt.value >= 2 + i
      {
        if failAt == Some(2 + i) {
          return false;
        }
        lines := lines + [OrderLine(order, items[i].sku, items[i].quantity, catalogue[items[i].sku])];
      }
      return true;
    }

    /**
     Creates the rows of an order one by one: the customer, the order, its lines, its transition and its audit
     row. `failAt` is the number of the statement that fails, if one does; what was written before it stays until
     the caller rolls back.
     */
    method CreateStorefrontDraftOrder(id: nat, p: Payload, failAt: Option<nat>) returns (r: Option<nat>)
      modifies this`customers, this`orders, this`lines, this`transitions, this`audits
      ensures r.Some? <==> AttemptSucceeds(old(Now()), p, failAt.Some? && failAt.value < 4 + |p.items|)
      ensures r.Some? ==> r.value == old(|orders|) && Rows() == Ordered(old(Rows()), id, p, catalogue)
    {
      if !Orderable(catalogue, p) {
        return None;
      }
      if failAt == Some(0) {
        return None;
      }
      var customer := CustomerFor(customers, p.email);
      if customer == |customers| {
        customers := customers + [Customer(p.email, true)];
      }
      if failAt == Some(1) {
        return None;
      }
      var order := |orders|;
      var subtotal := PriceOf(p.items);
      orders := orders + [SalesOrder(id, customer, subtotal)];
      var ok := CreateLines(order, p.items, failAt);
      if !ok || failAt == Some(2 + |p.items|) {
        return None;
      }
      transitions := transitions + [order];
      if failAt == Some(3 + |p.items|) {
        return None;
      }
      audits := audits + [Created(order)];
      r := Some(order);
    }

    /** What both transactions do inside their savepoint: the order, the link to it and the audit row of a retry. */
    method Link(id: nat, d: Delivery, retry: bool, failAt: Option<nat>) returns (ok: bool)
      requires id in deliveries && deliveries[id] == d
      modifies this`deliveries, this`customers, this`orders, this`lines, this`transitions, this`audits
      ensures ok <==> AttemptSucceeds(old(Now()), d.payload, Fault(d.payload, retry, failAt))
      ensures ok ==> Now() == Attempted(old(Now()), id, d, retry, false)
    {
      var created := CreateStorefrontDraftOrder(id, d.payload, failAt);
      if created.None? || failAt == Some(4 + |d.payload.items|) {
        return false;
      }
      deliveries := deliveries[id := d.(status := SUCCEEDED, order := created)];
      if retry {
        if failAt == Some(5 + |d.payload.items|) {
          return false;
        }
        audits := audits + [Retried(id, created.value)];
      }
      return true;
    }

    /** A failed statement undoes everything since the savepoint, and the delivery is marked as failed. */
    method Attempt(id: nat, d: Delivery, retry: bool, failAt: Option<nat>)
      requires id in deliveries && deliveries[id] == d
      modifies this`deliveries, this`customers, this`orders, this`lines, this`transitions, this`audits
      ensures Now() == Attempted(old(Now()), id, d, retry, Fault(d.payload, retry, failAt))
    {
      var savepoint := Now();
      var ok := Link(id, d, retry, failAt);
      if !ok {
        RollBackTo(savepoint);
        deliveries := deliveries[id := d.(status := FAILED)];
      }
    }

    method RollBackTo(savepoint: State)
      requires records == savepoint.records && catalogue == savepoint.catalogue
      modifies this`deliveries, this`customers, this`orders, this`lines, this`transitions, this`audits
      ensures Now() == savepoint
    {
      deliveries := savepoint.deliveries;
      customers, orders, lines := savepoint.shop.customers, savepoint.shop.orders, savepoint.shop.lines;
      transitions, audits := savepoint.shop.transitions, savepoint.shop.audits;
    }

    method RetryDelivery(id: nat, maxAttempts: Option<nat>, failAt: Option<nat>) returns (r: Result<Answer, Refusal>)
      modifies this`deliveries, this`customers, this`orders, this`lines, this`transitions, this`audits
      ensures var fault := id in old(deliveries) && Fault(old(deliveries)[id].payload, true, failAt);
              (Now(), r) == Retry(old(Now()), id, maxAttempts, fault)
    {
      if id !in deliveries {
        return Failure(DeliveryNotFound);
      }
      var delivery := deliveries[id];
      if delivery.status == SUCCEEDED {
        return Success(Answer(true, SUCCEEDED, delivery.order));
      }
      if maxAttempts.Some? && delivery.attempts >= maxAttempts.value {
        return Success(Answer(false, FAILED, None));
      }
      var processing := delivery.(attempts := delivery.attempts + 1, status := PROCESSING);
      MarkIsOverwritten(Now(), id, delivery.(attempts := delivery.attempts + 1), true, Fault(delivery.payload, true, failAt));
      deliveries := deliveries[id := processing];
      Attempt(id, processing, true, failAt);
      r := Success(Answer(false, deliveries[id].status, deliveries[id].order));
    }

    method ProcessExternalDelivery(id: nat, p: Payload, start: int, end: int, failAt: Option<nat>)
      returns (r: Result<Answer, Refusal>)
      modifies this
      ensures (Now(), r) == Received(old(Now()), id, p, start, end, Fault(p, false, failAt))
    {
      var before := records;
      records := Live(records, start);
      if id in records {
        if records[id].fingerprint != p {
          records := before;
          return Failure(KeyReusedForOtherPayload);
        }
        return Success(records[id].body.(duplicate := true));
      }
      var answer;
      if id in deliveries {
        answer := Answer(true, deliveries[id].status, deliveries[id].order);
      } else {
        var delivery := Delivery(p, PROCESSING, 1, None);
        MarkIsOverwritten(Now(), id, delivery, false, Fault(p, false, failAt));
        deliveries := deliveries[id := delivery];
        Attempt(id, delivery, false, failAt);
        answer := Answer(false, deliveries[id].status, deliveries[id].order);
      }
      records := records[id := Record(p, answer, end + RETENTION_MS)];
      r := Success(answer);
    }
  }
}
