/**
 Every sequence of webhook arrivals, queued retries and manual retries, while products and customers are edited
 between them. Transactions on one delivery exclude each other, the webhook's by its advisory lock and the
 unique delivery id, the retries' by the row lock, so each is one step; a transaction that rolls back as a whole
 is no step at all.
 */
module DeliveryRuns {
  import opened Wrappers
  import opened Idempotency
  import opened Deliveries

  /** `outside` are the customers that no storefront order created. */
  datatype System = System(state: State, now: int, outside: set<nat>)

  datatype Step =
    | Arrive(id: nat, payload: Payload, wait: nat, duration: nat, fault: bool)
    | QueueRetry(id: nat, fault: bool)
    | ManualRetry(id: nat, fault: bool)
    /** A product is added, priced anew or, without a price, taken out of the active catalogue. */
    | SetProduct(sku: nat, price: Option<nat>)
    | AddCustomer(customer: Customer)
    | EditCustomer(index: nat, customer: Customer)

  function Priced(catalogue: map<nat, nat>, sku: nat, price: Option<nat>): map<nat, nat> {
    match price
    case Some(cents) => catalogue[sku := cents]
    case None => catalogue - {sku}
  }

  function WithCustomers(s: State, customers: seq<Customer>): State {
    s.(shop := s.shop.(customers := customers))
  }

  function Do(s: System, step: Step): System {
    match step
    case Arrive(id, payload, wait, duration, fault) =>
      var start := s.now + wait;
      s.(state := Received(s.state, id, payload, start, start + duration, fault).0, now := start + duration)
    case QueueRetry(id, fault) => s.(state := Retry(s.state, id, Some(MAX_AUTOMATIC_DELIVERY_ATTEMPTS), fault).0)
    case ManualRetry(id, fault) => s.(state := Retry(s.state, id, None, fault).0)
    case SetProduct(sku, price) => s.(state := s.state.(catalogue := Priced(s.state.catalogue, sku, price)))
    case AddCustomer(customer) =>
      s.(state := WithCustomers(s.state, s.state.shop.customers + [customer]),
         outside := s.outside + {|s.state.shop.customers|})
    case EditCustomer(index, customer) =>
      if index < |s.state.shop.customers|
      then s.(state := WithCustomers(s.state, s.state.shop.customers[index := customer])) else s
  }

  /** What the caller of an arrival or a retry is told. */
  function ReplyTo(s: System, step: Step): Result<Answer, Refusal>
    requires step.Arrive? || step.QueueRetry? || step.ManualRetry?
  {
    match step
    case Arrive(id, payload, wait, duration, fault) =>
      Received(s.state, id, payload, s.now + wait, s.now + wait + duration, fault).1
    case QueueRetry(id, fault) => Retry(s.state, id, Some(MAX_AUTOMATIC_DELIVERY_ATTEMPTS), fault).1
    case ManualRetry(id, fault) => Retry(s.state, id, None, fault).1
  }

  function Run(s: System, steps: seq<Step>): System {
    if steps == [] then s else Do(Run(s, steps[..|steps| - 1]), steps[|steps| - 1])
  }

  /** The numbers below `n`. */
  function Below(n: nat): (numbers: set<nat>)
    ensures forall c: nat :: c in numbers <==> c < n
  {
    if n == 0 then {} else Below(n - 1) + {n - 1}
  }

  /** A workspace with some customers and products, and no storefront order yet. */
  function Initially(customers: seq<Customer>, catalogue: map<nat, nat>): System {
    System(State(map[], map[], Shop(customers, [], [], [], []), catalogue), 0, Below(|customers|))
  }

  // ----- The invariant -----

  ghost function LinesOf(lines: seq<OrderLine>, order: nat): seq<OrderLine> {
    if lines == [] then []
    else
      var last := lines[|lines| - 1];
      LinesOf(lines[..|lines| - 1], order) + (if last.order == order then [last] else [])
  }

  ghost function Total(lines: seq<OrderLine>): nat {
    if lines == [] then 0
    else Total(lines[..|lines| - 1]) + lines[|lines| - 1].unitPrice * lines[|lines| - 1].quantity
  }

  /** The order rows created in the order of their audit rows. */
  ghost function Creations(audits: seq<Audit>): seq<nat> {
    if audits == [] then []
    else
      var last := audits[|audits| - 1];
      Creations(audits[..|audits| - 1]) + (if last.Created? then [last.order] else [])
  }

  /** An order holds exactly the items asked for, and its subtotal is the sum of its lines. */
  ghost predicate Holds(shop: Shop, o: nat, items: seq<Item>) {
    var lines := LinesOf(shop.lines, o);
    && o < |shop.orders| && shop.orders[o].subtotal == Total(lines) && |lines| == |items|
    && forall i | 0 <= i < |items| :: lines[i].sku == items[i].sku && lines[i].quantity == items[i].quantity
  }

  ghost predicate DeliveryOk(s: State, id: nat)
    requires id in s.deliveries
  {
    var d := s.deliveries[id];
    && d.status != PROCESSING && d.attempts >= 1
    && (d.status == SUCCEEDED <==> d.order.Some?)
    && (d.order.Some? ==> Holds(s.shop, d.order.value, d.payload.items) && s.shop.orders[d.order.value].delivery == id)
  }

  /** Every order belongs to the delivery that points back to it, and every line to an order. */
  ghost predicate OrdersOk(s: State) {
    && (forall o | 0 <= o < |s.shop.orders| ::
          && s.shop.orders[o].delivery in s.deliveries
          && s.deliveries[s.shop.orders[o].delivery].order == Some(o)
          && s.shop.orders[o].customer < |s.shop.customers|)
    && (forall l | 0 <= l < |s.shop.lines| :: s.shop.lines[l].order < |s.shop.orders|)
  }

  ghost predicate NumberedFrom0(numbers: seq<nat>, n: nat) {
    |numbers| == n && forall i | 0 <= i < n :: numbers[i] == i
  }

  /** One transition and one creation for each order, and an audited retry only of a delivery that got its order. */
  ghost predicate TrailOk(s: State) {
    && NumberedFrom0(s.shop.transitions, |s.shop.orders|) && Creations(s.shop.audits) == s.shop.transitions
    && (forall a | a in s.shop.audits && a.Retried? ::
          && a.delivery in s.deliveries && s.deliveries[a.delivery].order == Some(a.order))
  }

  /** An answer that names an order names that of the delivery. */
  ghost predicate AnswerOk(s: State, id: nat, a: Answer) {
    && id in s.deliveries && (a.status == SUCCEEDED <==> a.order.Some?)
    && (a.order.Some? ==> s.deliveries[id].order == a.order)
  }

  ghost predicate RecordsOk(s: State) {
    forall id | id in s.records :: AnswerOk(s, id, s.records[id].body)
  }

  ghost predicate StateOk(s: State) {
    OrdersOk(s) && TrailOk(s) && RecordsOk(s) && forall id | id in s.deliveries :: DeliveryOk(s, id)
  }

  /** Every customer is of an order or came from outside. */
  ghost predicate CustomersOk(s: System) {
    forall c: nat | c < |s.state.shop.customers| :: c in s.outside || HasOrder(s.state.shop, c)
  }

  ghost predicate HasOrder(shop: Shop, customer: nat) {
    exists o | 0 <= o < |shop.orders| :: shop.orders[o].customer == customer
  }

  // ----- Lines -----

  lemma {:induction false} LinesOfAppend(lines: seq<OrderLine>, more: seq<OrderLine>, order: nat)
    ensures LinesOf(lines + more, order) == LinesOf(lines, order) + LinesOf(more, order)
  {
    if more == [] {
      assert lines + more == lines;
    } else {
      var last := |more| - 1;
      LinesOfAppend(lines, more[..last], order);
      assert (lines + more)[..|lines + more| - 1] == lines + more[..last];
    }
  }

  lemma {:induction false} LinesOfUniform(lines: seq<OrderLine>, order: nat)
    ensures (forall l | l in lines :: l.order == order) ==> LinesOf(lines, order) == lines
    ensures (forall l | l in lines :: l.order != order) ==> LinesOf(lines, order) == []
  {
    if lines != [] {
      LinesOfUniform(lines[..|lines| - 1], order);
      assert lines == lines[..|lines| - 1] + [lines[|lines| - 1]];
    }
  }

  lemma OrderedLines(shop: Shop, id: nat, p: Payload, catalogue: map<nat, nat>, order: nat)
    requires Orderable(catalogue, p) && order <= |shop.orders|
    requires forall l | 0 <= l < |shop.lines| :: shop.lines[l].order < |shop.orders|
    ensures LinesOf(Ordered(shop, id, p, catalogue).lines, order)
            == if order == |shop.orders| then LinesFor(order, p.items, catalogue) else LinesOf(shop.lines, order)
  {
    var more := LinesFor(|shop.orders|, p.items, catalogue);
    LinesOfAppend(shop.lines, more, order);
    LinesOfUniform(shop.lines, order);
    LinesOfUniform(more, order);
  }

  lemma {:induction false} SubtotalIsTotal(order: nat, items: seq<Item>, catalogue: map<nat, nat>)
    requires forall i | 0 <= i < |items| :: items[i].sku in catalogue
    ensures Subtotal(items, catalogue) == Total(LinesFor(order, items, catalogue))
  {
    if items != [] {
      var front := items[..|items| - 1];
      SubtotalIsTotal(order, front, catalogue);
      assert LinesFor(order, items, catalogue)[..|items| - 1] == LinesFor(order, front, catalogue);
    }
  }

  /** The new order holds what was asked for, and the others hold what they held. */
  lemma OrderedHolds(shop: Shop, id: nat, p: Payload, catalogue: map<nat, nat>, o: nat, items: seq<Item>)
    requires Orderable(catalogue, p)
    requires forall l | 0 <= l < |shop.lines| :: shop.lines[l].order < |shop.orders|
    requires if o == |shop.orders| then items == p.items else Holds(shop, o, items)
    ensures Holds(Ordered(shop, id, p, catalogue), o, items)
  {
    OrderedLines(shop, id, p, catalogue, o);
    SubtotalIsTotal(|shop.orders|, p.items, catalogue);
  }

  // ----- An attempt -----

  /** What an attempt at delivery `id` finds: no order for it yet, and everything else in order. */
  ghost predicate Ready(s: State, id: nat, d: Delivery) {
    && OrdersOk(s) && TrailOk(s) && RecordsOk(s) && (forall k | k in s.deliveries && k != id :: DeliveryOk(s, k))
    && d.attempts >= 1 && d.order.None? && (id in s.deliveries ==> s.deliveries[id].order.None?)
  }

  lemma NoOrderYet(s: State, id: nat, d: Delivery, o: nat)
    requires Ready(s, id, d) && o < |s.shop.orders|
    ensures s.shop.orders[o].delivery != id
  {
  }

  lemma AttemptKeepsDelivery(s: State, id: nat, d: Delivery, retry: bool, fault: bool, k: nat)
    requires Ready(s, id, d) && (k in s.deliveries || k == id)
    ensures DeliveryOk(Attempted(s, id, d, retry, fault), k)
  {
    hide Holds, Ordered, TrailOk, RecordsOk;
    var after := Attempted(s, id, d, retry, fault);
    if AttemptSucceeds(s, d.payload, fault) {
      var shop := Ordered(s.shop, id, d.payload, s.catalogue);
      assert after.shop.orders == shop.orders && after.shop.lines == shop.lines;
      NewOrder(s.shop, id, d.payload, s.catalogue);
      if k == id {
        OrderedHolds(s.shop, id, d.payload, s.catalogue, |s.shop.orders|, d.payload.items);
        SameHolds(shop, after.shop, |s.shop.orders|, d.payload.items);
      } else {
        assert DeliveryOk(s, k);
        var e := s.deliveries[k];
        if e.order.Some? {
          HoldsAnOrder(s.shop, e.order.value, e.payload.items);
          OrderedHolds(s.shop, id, d.payload, s.catalogue, e.order.value, e.payload.items);
          SameHolds(shop, after.shop, e.order.value, e.payload.items);
        }
      }
    } else if k != id {
      assert DeliveryOk(s, k);
    }
  }

  lemma SameHolds(a: Shop, b: Shop, o: nat, items: seq<Item>)
    requires Holds(a, o, items) && a.orders == b.orders && a.lines == b.lines
    ensures Holds(b, o, items)
  {
  }

  lemma HoldsAnOrder(shop: Shop, o: nat, items: seq<Item>)
    requires Holds(shop, o, items)
    ensures o < |shop.orders|
  {
  }

  lemma NewOrder(shop: Shop, id: nat, p: Payload, catalogue: map<nat, nat>)
    requires Orderable(catalogue, p)
    ensures var after := Ordered(shop, id, p, catalogue);
            && |after.orders| == |shop.orders| + 1 && after.orders[..|shop.orders|] == shop.orders
            && after.orders[|shop.orders|].delivery == id
            && after.orders[|shop.orders|].customer < |after.customers| && |shop.customers| <= |after.customers|
            && (forall l | 0 <= l < |after.lines| ::
                  (l < |shop.lines| && after.lines[l] == shop.lines[l]) || after.lines[l].order == |shop.orders|)
  {
  }

  lemma AttemptKeepsOrders(s: State, id: nat, d: Delivery, retry: bool, fault: bool)
    requires Ready(s, id, d)
    ensures OrdersOk(Attempted(s, id, d, retry, fault))
  {
    hide Ordered, TrailOk, RecordsOk;
    var after := Attempted(s, id, d, retry, fault);
    if AttemptSucceeds(s, d.payload, fault) {
      NewOrder(s.shop, id, d.payload, s.catalogue);
    }
    forall o: nat | o < |s.shop.orders|
      ensures after.shop.orders[o] == s.shop.orders[o] && s.shop.orders[o].delivery != id
    {
      NoOrderYet(s, id, d, o);
      if AttemptSucceeds(s, d.payload, fault) {
        assert after.shop.orders[..|s.shop.orders|][o] == s.shop.orders[o];
      }
    }
  }

  lemma CreationsAppend(audits: seq<Audit>, audit: Audit)
    ensures Creations(audits + [audit]) == Creations(audits) + (if audit.Created? then [audit.order] else [])
  {
    assert (audits + [audit])[..|audits|] == audits;
  }

  lemma OrderedTrail(s: State, id: nat, p: Payload)
    requires TrailOk(s) && Orderable(s.catalogue, p)
    ensures var after := Ordered(s.shop, id, p, s.catalogue);
            && NumberedFrom0(after.transitions, |s.shop.orders| + 1) && Creations(after.audits) == after.transitions
            && (forall a | a in after.audits && a.Retried? :: a in s.shop.audits)
  {
    CreationsAppend(s.shop.audits, Created(|s.shop.orders|));
  }

  lemma AttemptKeepsTrail(s: State, id: nat, d: Delivery, retry: bool, fault: bool)
    requires Ready(s, id, d)
    ensures TrailOk(Attempted(s, id, d, retry, fault))
  {
    hide OrdersOk, RecordsOk, DeliveryOk;
    if AttemptSucceeds(s, d.payload, fault) {
      OrderedTrail(s, id, d.payload);
      NewOrder(s.shop, id, d.payload, s.catalogue);
      RetriedTrail(s, id, d, retry, Ordered(s.shop, id, d.payload, s.catalogue));
    }
  }

  lemma RetriedTrail(s: State, id: nat, d: Delivery, retry: bool, shop: Shop)
    requires TrailOk(s) && (id in s.deliveries ==> s.deliveries[id].order.None?)
    requires |shop.orders| == |s.shop.orders| + 1 && NumberedFrom0(shop.transitions, |shop.orders|)
    requires Creations(shop.audits) == shop.transitions
    requires forall a | a in shop.audits && a.Retried? :: a in s.shop.audits
    ensures var order := |s.shop.orders|;
            TrailOk(s.(deliveries := s.deliveries[id := d.(status := SUCCEEDED, order := Some(order))],
                       shop := if retry then Audited(shop, Retried(id, order)) else shop))
  {
    CreationsAppend(shop.audits, Retried(id, |s.shop.orders|));
  }

  lemma AttemptKeepsRecords(s: State, id: nat, d: Delivery, retry: bool, fault: bool)
    requires Ready(s, id, d)
    ensures RecordsOk(Attempted(s, id, d, retry, fault))
  {
    hide Ordered, OrdersOk, TrailOk;
    forall k | k in s.records ensures AnswerOk(Attempted(s, id, d, retry, fault), k, s.records[k].body) {
      assert AnswerOk(s, k, s.records[k].body);
    }
  }

  lemma AttemptKeepsOk(s: State, id: nat, d: Delivery, retry: bool, fault: bool)
    requires Ready(s, id, d)
    ensures StateOk(Attempted(s, id, d, retry, fault))
  {
    hide Ready, DeliveryOk, OrdersOk, TrailOk, RecordsOk;
    var after := Attempted(s, id, d, retry, fault);
    AttemptKeepsOrders(s, id, d, retry, fault);
    AttemptKeepsTrail(s, id, d, retry, fault);
    AttemptKeepsRecords(s, id, d, retry, fault);
    forall k | k in after.deliveries ensures DeliveryOk(after, k) {
      AttemptKeepsDelivery(s, id, d, retry, fault, k);
    }
  }

  // ----- Steps -----

  lemma RetryIsReady(s: State, id: nat)
    requires StateOk(s) && id in s.deliveries && s.deliveries[id].status != SUCCEEDED
    ensures Ready(s, id, s.deliveries[id].(attempts := s.deliveries[id].attempts + 1))
  {
    assert DeliveryOk(s, id);
  }

  lemma RetryKeepsOk(s: State, id: nat, maxAttempts: Option<nat>, fault: bool)
    requires StateOk(s)
    ensures StateOk(Retry(s, id, maxAttempts, fault).0)
  {
    hide StateOk, Attempted;
    if id in s.deliveries && s.deliveries[id].status != SUCCEEDED {
      var d := s.deliveries[id].(attempts := s.deliveries[id].attempts + 1);
      RetryIsReady(s, id);
      AttemptKeepsOk(s, id, d, true, fault);
    }
  }

  lemma FirstAttemptIsReady(s: State, id: nat, p: Payload)
    requires StateOk(s) && id !in s.deliveries
    ensures Ready(s, id, Delivery(p, PROCESSING, 1, None))
  {
  }

  lemma WorkKeepsOk(s: State, id: nat, p: Payload, fault: bool)
    requires StateOk(s)
    ensures var (after, answer) := Worked(s, id, p, fault); StateOk(after) && AnswerOk(after, id, answer)
  {
    hide StateOk, DeliveryOk;
    if id !in s.deliveries {
      FirstAttemptIsReady(s, id, p);
      AttemptKeepsOk(s, id, Delivery(p, PROCESSING, 1, None), false, fault);
    }
    OkDelivery(Worked(s, id, p, fault).0, id);
  }

  lemma OkDelivery(s: State, id: nat)
    requires StateOk(s) && id in s.deliveries
    ensures s.deliveries[id].status == SUCCEEDED <==> s.deliveries[id].order.Some?
  {
    assert DeliveryOk(s, id);
  }

  lemma RecordingKeepsOk(s: State, records: map<nat, Record<Payload, Answer>>)
    requires StateOk(s) && forall k | k in records :: AnswerOk(s, k, records[k].body)
    ensures StateOk(s.(records := records))
  {
    hide Holds;
    var after := s.(records := records);
    forall k | k in after.deliveries ensures DeliveryOk(after, k) {
      assert DeliveryOk(s, k);
    }
    forall k | k in records ensures AnswerOk(after, k, records[k].body) {
      assert AnswerOk(s, k, records[k].body);
    }
  }

  lemma ArrivalKeepsOk(s: State, id: nat, p: Payload, start: int, end: int, fault: bool)
    requires StateOk(s)
    ensures StateOk(Received(s, id, p, start, end, fault).0)
    ensures var reply := Received(s, id, p, start, end, fault).1;
            reply.Success? ==> AnswerOk(Received(s, id, p, start, end, fault).0, id, reply.value)
  {
    hide Holds, OrdersOk, TrailOk, DeliveryOk, Worked;
    var (after, answer) := Worked(s, id, p, fault);
    var records := RecordsAfter(s.records, id, p, Some(answer), start, end);
    WorkKeepsOk(s, id, p, fault);
    if OutcomeOf(s.records, id, p, Some(answer), start).Done? {
      WorkedKeepsRecords(s, id, p, fault);
      RecordingKeepsOk(after, records);
    } else {
      RecordingKeepsOk(s, records);
    }
  }

  lemma WorkedKeepsRecords(s: State, id: nat, p: Payload, fault: bool)
    ensures Worked(s, id, p, fault).0.records == s.records
  {
  }

  /** Prices and customers matter only to attempts still to come. */
  lemma EditKeepsOk(s: State, after: State)
    requires StateOk(s) && after.deliveries == s.deliveries && after.records == s.records
    requires after.shop == s.shop.(customers := after.shop.customers) && |s.shop.customers| <= |after.shop.customers|
    ensures StateOk(after)
  {
    forall k | k in after.deliveries ensures DeliveryOk(after, k) {
      assert DeliveryOk(s, k);
    }
    forall k | k in after.records ensures AnswerOk(after, k, after.records[k].body) {
      assert AnswerOk(s, k, s.records[k].body);
    }
  }

  lemma StepKeepsOk(s: System, step: Step)
    requires StateOk(s.state)
    ensures StateOk(Do(s, step).state)
  {
    hide StateOk, Received, Retry;
    match step
    case Arrive(id, payload, wait, duration, fault) =>
      ArrivalKeepsOk(s.state, id, payload, s.now + wait, s.now + wait + duration, fault);
    case QueueRetry(id, fault) => RetryKeepsOk(s.state, id, Some(MAX_AUTOMATIC_DELIVERY_ATTEMPTS), fault);
    case ManualRetry(id, fault) => RetryKeepsOk(s.state, id, None, fault);
    case _ => EditKeepsOk(s.state, Do(s, step).state);
  }

  lemma {:induction false} RunKeepsOk(s: System, steps: seq<Step>)
    requires StateOk(s.state)
    ensures StateOk(Run(s, steps).state)
  {
    if steps != [] {
      RunKeepsOk(s, steps[..|steps| - 1]);
      StepKeepsOk(Run(s, steps[..|steps| - 1]), steps[|steps| - 1]);
    }
  }

  lemma InitiallyOk(customers: seq<Customer>, catalogue: map<nat, nat>)
    ensures StateOk(Initially(customers, catalogue).state) && CustomersOk(Initially(customers, catalogue))
  {
  }

  // ----- Customers -----

  /** Orders only grow, and a customer more is the customer of an order more. */
  ghost predicate CustomersOrder(s: State, t: State) {
    && |s.shop.orders| <= |t.shop.orders| && t.shop.orders[..|s.shop.orders|] == s.shop.orders
    && forall c: nat | |s.shop.customers| <= c < |t.shop.customers| :: HasOrder(t.shop, c)
  }

  lemma AttemptCustomers(s: State, id: nat, d: Delivery, retry: bool, fault: bool)
    ensures CustomersOrder(s, Attempted(s, id, d, retry, fault))
  {
    var after := Attempted(s, id, d, retry, fault);
    if AttemptSucceeds(s, d.payload, fault) && |after.shop.customers| > |s.shop.customers| {
      assert after.shop.orders[|s.shop.orders|].customer == |s.shop.customers|;
    }
  }

  lemma StepCustomers(s: System, step: Step)
    requires step.Arrive? || step.QueueRetry? || step.ManualRetry?
    ensures CustomersOrder(s.state, Do(s, step).state) && Do(s, step).outside == s.outside
  {
    hide CustomersOrder, Attempted;
    NoNewCustomers(s.state, Do(s, step).state);
    if step.Arrive? {
      var start := s.now + step.wait;
      AttemptCustomers(s.state, step.id, Delivery(step.payload, PROCESSING, 1, None), false, step.fault);
      SameShop(s.state, Worked(s.state, step.id, step.payload, step.fault).0, Do(s, step).state);
    } else if step.id in s.state.deliveries {
      var d := s.state.deliveries[step.id];
      AttemptCustomers(s.state, step.id, d.(attempts := d.attempts + 1), true, step.fault);
    }
  }

  lemma NoNewCustomers(s: State, t: State)
    ensures t.shop == s.shop ==> CustomersOrder(s, t)
  {
  }

  lemma SameShop(s: State, t: State, u: State)
    ensures CustomersOrder(s, t) && u.shop == t.shop ==> CustomersOrder(s, u)
  {
  }

  lemma StepKeepsCustomers(s: System, step: Step)
    requires CustomersOk(s)
    ensures CustomersOk(Do(s, step))
  {
    hide Received, Retry;
    var after := Do(s, step);
    if step.Arrive? || step.QueueRetry? || step.ManualRetry? {
      StepCustomers(s, step);
    }
    forall c: nat | c < |after.state.shop.customers| ensures c in after.outside || HasOrder(after.state.shop, c) {
      if c < |s.state.shop.customers| && HasOrder(s.state.shop, c) {
        var o :| 0 <= o < |s.state.shop.orders| && s.state.shop.orders[o].customer == c;
        assert after.state.shop.orders[..|s.state.shop.orders|][o] == s.state.shop.orders[o];
        assert after.state.shop.orders[o].customer == c;
      }
    }
  }

  lemma {:induction false} RunKeepsCustomers(s: System, steps: seq<Step>)
    requires CustomersOk(s)
    ensures CustomersOk(Run(s, steps))
  {
    if steps != [] {
      RunKeepsCustomers(s, steps[..|steps| - 1]);
      StepKeepsCustomers(Run(s, steps[..|steps| - 1]), steps[|steps| - 1]);
    }
  }

  // ----- Theorems -----

  /** At most one order for each delivery id, in every run, however late the webhook is replayed. */
  lemma AtMostOneOrder(customers: seq<Customer>, catalogue: map<nat, nat>, steps: seq<Step>)
    ensures var orders := Run(Initially(customers, catalogue), steps).state.shop.orders;
            forall i, j | 0 <= i < j < |orders| :: orders[i].delivery != orders[j].delivery
  {
    InitiallyOk(customers, catalogue);
    RunKeepsOk(Initially(customers, catalogue), steps);
  }

  /**
   A delivery is SUCCEEDED exactly when it carries its order, and that order has exactly the lines it asked for,
   which add up to its subtotal.
   */
  lemma SucceededIffOrdered(customers: seq<Customer>, catalogue: map<nat, nat>, steps: seq<Step>, id: nat)
    requires id in Run(Initially(customers, catalogue), steps).state.deliveries
    ensures var s := Run(Initially(customers, catalogue), steps).state;
            var d := s.deliveries[id];
            && (d.status == SUCCEEDED <==> d.order.Some?)
            && (d.status == SUCCEEDED <==> exists o :: 0 <= o < |s.shop.orders| && s.shop.orders[o].delivery == id)
            && (d.order.Some? ==> Holds(s.shop, d.order.value, d.payload.items))
  {
    InitiallyOk(customers, catalogue);
    RunKeepsOk(Initially(customers, catalogue), steps);
    assert DeliveryOk(Run(Initially(customers, catalogue), steps).state, id);
  }

  /**
   Attempts are all or nothing: whichever of them failed and wherever, every line, transition and audit row is of
   an order, every order is that of a succeeded delivery and has its one transition and its one creation, and
   every customer that did not come from outside has an order.
   */
  lemma NothingIsLeftOver(customers: seq<Customer>, catalogue: map<nat, nat>, steps: seq<Step>)
    ensures var s := Run(Initially(customers, catalogue), steps);
            var shop := s.state.shop;
            && (forall l | 0 <= l < |shop.lines| :: shop.lines[l].order < |shop.orders|)
            && (forall o | 0 <= o < |shop.orders| ::
                  && shop.orders[o].delivery in s.state.deliveries
                  && s.state.deliveries[shop.orders[o].delivery].status == SUCCEEDED
                  && s.state.deliveries[shop.orders[o].delivery].order == Some(o))
            && NumberedFrom0(shop.transitions, |shop.orders|) && Creations(shop.audits) == shop.transitions
            && (forall a | a in shop.audits && a.Retried? ::
                  a.delivery in s.state.deliveries && s.state.deliveries[a.delivery].order == Some(a.order))
            && (forall c: nat | c < |shop.customers| && c !in s.outside :: HasOrder(shop, c))
  {
    InitiallyOk(customers, catalogue);
    RunKeepsOk(Initially(customers, catalogue), steps);
    RunKeepsCustomers(Initially(customers, catalogue), steps);
    var s := Run(Initially(customers, catalogue), steps);
    forall o | 0 <= o < |s.state.shop.orders|
      ensures s.state.deliveries[s.state.shop.orders[o].delivery].status == SUCCEEDED
    {
      assert DeliveryOk(s.state, s.state.shop.orders[o].delivery);
    }
  }

  lemma SucceededStays(s: System, step: Step, id: nat)
    requires id in s.state.deliveries && s.state.deliveries[id].status == SUCCEEDED
    ensures id in Do(s, step).state.deliveries && Do(s, step).state.deliveries[id] == s.state.deliveries[id]
  {
  }

  /** A delivery that succeeded never changes again. */
  lemma {:induction false} SucceededIsFinal(s: System, steps: seq<Step>, id: nat)
    requires id in s.state.deliveries && s.state.deliveries[id].status == SUCCEEDED
    ensures id in Run(s, steps).state.deliveries && Run(s, steps).state.deliveries[id] == s.state.deliveries[id]
  {
    hide Do;
    if steps != [] {
      var front := steps[..|steps| - 1];
      SucceededIsFinal(s, front, id);
      SucceededStays(Run(s, front), steps[|steps| - 1], id);
    }
  }

  lemma RetryReply(s: State, id: nat, maxAttempts: Option<nat>, fault: bool)
    requires StateOk(s) && Retry(s, id, maxAttempts, fault).1.Success?
    ensures AnswerOk(Retry(s, id, maxAttempts, fault).0, id, Retry(s, id, maxAttempts, fault).1.value)
  {
    hide Attempted, DeliveryOk, StateOk;
    RetryKeepsOk(s, id, maxAttempts, fault);
    OkDelivery(s, id);
    if s.deliveries[id].status != SUCCEEDED {
      RetryKnows(s, id, maxAttempts, fault);
      OkDelivery(Retry(s, id, maxAttempts, fault).0, id);
    }
  }

  lemma RetryKnows(s: State, id: nat, maxAttempts: Option<nat>, fault: bool)
    requires id in s.deliveries
    ensures id in Retry(s, id, maxAttempts, fault).0.deliveries
  {
  }

  lemma ReplyIsOk(s: System, step: Step)
    requires StateOk(s.state) && (step.Arrive? || step.QueueRetry? || step.ManualRetry?) && ReplyTo(s, step).Success?
    ensures AnswerOk(Do(s, step).state, step.id, ReplyTo(s, step).value)
  {
    hide StateOk, AnswerOk, Retry, Received;
    match step
    case Arrive(id, payload, wait, duration, fault) =>
      ArrivalKeepsOk(s.state, id, payload, s.now + wait, s.now + wait + duration, fault);
    case QueueRetry(id, fault) => RetryReply(s.state, id, Some(MAX_AUTOMATIC_DELIVERY_ATTEMPTS), fault);
    case ManualRetry(id, fault) => RetryReply(s.state, id, None, fault);
    case _ =>
  }

  /**
   Whoever is told of an order, by an arrival, a stored answer that is replayed or a retry, is told the truth and
   for ever: the delivery has succeeded with that order and keeps it.
   */
  lemma AnswersStayTrue(customers: seq<Customer>, catalogue: map<nat, nat>, steps: seq<Step>, step: Step, more: seq<Step>)
    requires step.Arrive? || step.QueueRetry? || step.ManualRetry?
    ensures var before := Run(Initially(customers, catalogue), steps);
            var reply := ReplyTo(before, step);
            var deliveries := Run(Do(before, step), more).state.deliveries;
            reply.Success? ==>
              && (reply.value.status == SUCCEEDED <==> reply.value.order.Some?)
              && (reply.value.order.Some? ==>
                    && step.id in deliveries && deliveries[step.id].status == SUCCEEDED
                    && deliveries[step.id].order == reply.value.order)
  {
    hide StateOk, ReplyTo, Do;
    var before := Run(Initially(customers, catalogue), steps);
    InitiallyOk(customers, catalogue);
    RunKeepsOk(Initially(customers, catalogue), steps);
    if ReplyTo(before, step).Success? {
      StepKeepsOk(before, step);
      ReplyIsOk(before, step);
      OkDelivery(Do(before, step).state, step.id);
      if ReplyTo(before, step).value.order.Some? {
        SucceededIsFinal(Do(before, step), more, step.id);
      }
    }
  }

  ghost function Manual(steps: seq<Step>, id: nat): nat {
    if steps == [] then 0
    else
      var step := steps[|steps| - 1];
      Manual(steps[..|steps| - 1], id) + (if step.ManualRetry? && step.id == id then 1 else 0)
  }

  ghost function Attempts(s: System, id: nat): nat {
    if id in s.state.deliveries then s.state.deliveries[id].attempts else 0
  }

  /** Attempts never decrease, and those that nobody asked for by hand never exceed seven. */
  lemma StepCountsAttempts(s: System, step: Step, id: nat)
    ensures Attempts(s, id) <= Attempts(Do(s, step), id)
    ensures Attempts(Do(s, step), id)
            <= if step.ManualRetry? && step.id == id then Attempts(s, id) + 1
               else if Attempts(s, id) < MAX_AUTOMATIC_DELIVERY_ATTEMPTS then Attempts(s, id) + 1
               else Attempts(s, id)
  {
  }

  lemma {:induction false} AutomaticAttemptsAreCapped(customers: seq<Customer>, catalogue: map<nat, nat>, steps: seq<Step>, id: nat)
    ensures var s := Initially(customers, catalogue);
            && Attempts(Run(s, steps), id) <= MAX_AUTOMATIC_DELIVERY_ATTEMPTS + Manual(steps, id)
            && (steps != [] ==> Attempts(Run(s, steps[..|steps| - 1]), id) <= Attempts(Run(s, steps), id))
  {
    if steps != [] {
      var last := |steps| - 1;
      AutomaticAttemptsAreCapped(customers, catalogue, steps[..last], id);
      StepCountsAttempts(Run(Initially(customers, catalogue), steps[..last]), steps[last], id);
    }
  }

  /** Whether a step makes an attempt at delivery `id`; whether the attempt succeeds does not matter. */
  predicate Tries(s: System, step: Step, id: nat) {
    match step
    case Arrive(k, _, _, _, _) => k == id && id !in s.state.deliveries
    case QueueRetry(k, _) =>
      k == id && Unfinished(s.state, id) && s.state.deliveries[id].attempts < MAX_AUTOMATIC_DELIVERY_ATTEMPTS
    case ManualRetry(k, _) => k == id && Unfinished(s.state, id)
    case _ => false
  }

  predicate Unfinished(s: State, id: nat) {
    id in s.deliveries && s.deliveries[id].order.None?
  }

  ghost function TriesSoFar(s: System, steps: seq<Step>, id: nat): nat {
    if steps == [] then 0
    else
      var front := steps[..|steps| - 1];
      TriesSoFar(s, front, id) + (if Tries(Run(s, front), steps[|steps| - 1], id) then 1 else 0)
  }

  lemma StepCountsTry(s: System, step: Step, id: nat)
    requires StateOk(s.state)
    ensures Attempts(Do(s, step), id) == Attempts(s, id) + (if Tries(s, step, id) then 1 else 0)
  {
    hide StateOk, Ordered;
    KnownRecord(s.state, id);
  }

  /** The count of a delivery is the number of attempts made at it, those that failed and were rolled back included. */
  lemma {:induction false} EveryAttemptCounts(customers: seq<Customer>, catalogue: map<nat, nat>, steps: seq<Step>, id: nat)
    ensures var s := Initially(customers, catalogue);
            Attempts(Run(s, steps), id) == TriesSoFar(s, steps, id)
  {
    if steps != [] {
      var front := steps[..|steps| - 1];
      EveryAttemptCounts(customers, catalogue, front, id);
      InitiallyOk(customers, catalogue);
      RunKeepsOk(Initially(customers, catalogue), front);
      StepCountsTry(Run(Initially(customers, catalogue), front), steps[|steps| - 1], id);
    }
  }

  // ----- Whose the order is, and at what price -----

  ghost predicate ActiveWith(customer: Customer, email: Option<nat>) {
    email.Some? && customer.active && customer.email == email
  }

  /** The first of the active customers with this e-mail address. */
  ghost predicate IsFirst(customers: seq<Customer>, email: Option<nat>, c: nat) {
    && c < |customers| && ActiveWith(customers[c], email)
    && forall j | 0 <= j < c :: !ActiveWith(customers[j], email)
  }

  /** The last order of `t` is that of delivery `id`: at the prices of `s`, for the customer its payload names. */
  ghost predicate OrderRight(s: State, t: State, id: nat, p: Payload) {
    var o := |s.shop.orders|;
    && |t.shop.orders| == o + 1 && t.shop.orders[..o] == s.shop.orders && t.shop.orders[o].delivery == id
    && (if exists c :: IsFirst(s.shop.customers, p.email, c)
        then t.shop.customers == s.shop.customers && IsFirst(s.shop.customers, p.email, t.shop.orders[o].customer)
        else t.shop.customers == s.shop.customers + [Customer(p.email, true)]
             && t.shop.orders[o].customer == |s.shop.customers|)
    && |t.shop.lines| == |s.shop.lines| + |p.items| && t.shop.lines[..|s.shop.lines|] == s.shop.lines
    && forall i | 0 <= i < |p.items| ::
         && p.items[i].sku in s.catalogue
         && t.shop.lines[|s.shop.lines| + i] == OrderLine(o, p.items[i].sku, p.items[i].quantity, s.catalogue[p.items[i].sku])
  }

  lemma CustomerIsFirst(customers: seq<Customer>, email: Option<nat>)
    ensures var c := CustomerFor(customers, email);
            if c < |customers| then IsFirst(customers, email, c) else forall k :: !IsFirst(customers, email, k)
  {
    var c := CustomerFor(customers, email);
    if c == |customers| && email.Some? {
      forall k: nat | k < |customers| ensures !ActiveWith(customers[k], email) {
        assert customers[k] in customers;
        assert ActiveWith(customers[k], email) ==> customers[k] == Customer(email, true);
      }
    }
  }

  lemma AttemptIsRight(s: State, id: nat, d: Delivery, retry: bool, fault: bool)
    requires AttemptSucceeds(s, d.payload, fault)
    ensures OrderRight(s, Attempted(s, id, d, retry, fault), id, d.payload)
  {
    hide CustomerFor;
    CustomerIsFirst(s.shop.customers, d.payload.email);
  }

  /** Whether a webhook or a retry of delivery `id` got its order just now. */
  ghost predicate Ordering(s: System, step: Step) {
    (step.Arrive? || step.QueueRetry? || step.ManualRetry?) && |Do(s, step).state.shop.orders| > |s.state.shop.orders|
  }

  /** The payload is that of the arrival, or the one the delivery was stored with. */
  ghost predicate PayloadOf(s: System, step: Step, p: Payload)
    requires step.Arrive? || step.QueueRetry? || step.ManualRetry?
  {
    if step.Arrive? then p == step.payload else step.id in s.state.deliveries && p == s.state.deliveries[step.id].payload
  }

  /**
   Whenever a webhook or a retry gets its order, it is an order for the first active customer with the payload's
   e-mail address at that moment, or for one new customer with that address if there is none; its lines are the
   items of the payload at the prices of that moment. The creation is audited, and a retry's success after it.
   */
  lemma OrderLaw(s: System, step: Step)
    requires Ordering(s, step)
    ensures step.id in Do(s, step).state.deliveries
    ensures var t := Do(s, step).state;
            var d := t.deliveries[step.id];
            && PayloadOf(s, step, d.payload) && OrderRight(s.state, t, step.id, d.payload)
            && d.order == Some(|s.state.shop.orders|) && d.status == SUCCEEDED
            && t.shop.audits == s.state.shop.audits + [Created(|s.state.shop.orders|)]
                                + if step.Arrive? then [] else [Retried(step.id, |s.state.shop.orders|)]
  {
    hide OrderRight, Ordered;
    var t := Do(s, step).state;
    match step
    case Arrive(id, p, wait, duration, fault) =>
      var d := Delivery(p, PROCESSING, 1, None);
      AttemptIsRight(s.state, id, d, false, fault);
      CreationIsAudited(s.state, id, p);
      SameRows(s.state, Attempted(s.state, id, d, false, fault), t, id, p);
    case QueueRetry(id, fault) =>
      var d := s.state.deliveries[id].(attempts := s.state.deliveries[id].attempts + 1);
      AttemptIsRight(s.state, id, d, true, fault);
      CreationIsAudited(s.state, id, d.payload);
    case ManualRetry(id, fault) =>
      var d := s.state.deliveries[id].(attempts := s.state.deliveries[id].attempts + 1);
      AttemptIsRight(s.state, id, d, true, fault);
      CreationIsAudited(s.state, id, d.payload);
    case _ =>
  }

  lemma CreationIsAudited(s: State, id: nat, p: Payload)
    requires Orderable(s.catalogue, p)
    ensures Ordered(s.shop, id, p, s.catalogue).audits == s.shop.audits + [Created(|s.shop.orders|)]
  {
  }

  lemma SameRows(s: State, t: State, u: State, id: nat, p: Payload)
    requires OrderRight(s, t, id, p) && u.shop == t.shop
    ensures OrderRight(s, u, id, p)
  {
  }

  /**
   An attempt succeeds exactly when its products are distinct and all for sale and no statement fails; a step that
   makes no attempt changes no delivery and no row.
   */
  lemma AcceptanceLaw(customers: seq<Customer>, catalogue: map<nat, nat>, steps: seq<Step>, step: Step)
    requires step.Arrive? || step.QueueRetry? || step.ManualRetry?
    ensures var s := Run(Initially(customers, catalogue), steps);
            var t := Do(s, step).state;
            if Tries(s, step, step.id) then
              var items := (if step.Arrive? then step.payload else s.state.deliveries[step.id].payload).items;
              && step.id in t.deliveries
              && (t.deliveries[step.id].order.Some? <==>
                    && !step.fault && (forall i | 0 <= i < |items| :: items[i].sku in s.state.catalogue)
                    && forall i, j | 0 <= i < j < |items| :: items[i].sku != items[j].sku)
            else t.deliveries == s.state.deliveries && t.shop == s.state.shop
  {
    hide Ordered;
    InitiallyOk(customers, catalogue);
    RunKeepsOk(Initially(customers, catalogue), steps);
    var s := Run(Initially(customers, catalogue), steps);
    KnownRecord(s.state, step.id);
  }

  lemma KnownRecord(s: State, id: nat)
    requires StateOk(s)
    ensures id in s.records ==> id in s.deliveries
    ensures id in s.deliveries ==> (s.deliveries[id].status == SUCCEEDED <==> s.deliveries[id].order.Some?)
  {
    assert id in s.records ==> AnswerOk(s, id, s.records[id].body);
    assert id in s.deliveries ==> DeliveryOk(s, id);
  }

  /**
   What an arrival is told. A key whose record lives is refused for another payload and otherwise repeats the stored
   answer; without a live record the answer is the delivery as it is now. It counts as a duplicate exactly when the
   delivery was known before.
   */
  lemma ArrivalReply(customers: seq<Customer>, catalogue: map<nat, nat>, steps: seq<Step>, step: Step)
    requires step.Arrive?
    ensures var s := Run(Initially(customers, catalogue), steps);
            var reply, t := ReplyTo(s, step), Do(s, step).state;
            var live := step.id in s.state.records && s.state.records[step.id].expiresAt >= s.now + step.wait;
            && (reply.Failure? <==> live && s.state.records[step.id].fingerprint != step.payload)
            && (reply.Failure? ==> reply.error == KeyReusedForOtherPayload)
            && (reply.Success? ==> (reply.value.duplicate <==> step.id in s.state.deliveries))
            && (reply.Success? && !live ==>
                  && step.id in t.deliveries && reply.value.status == t.deliveries[step.id].status
                  && reply.value.order == t.deliveries[step.id].order)
  {
    hide Ordered;
    InitiallyOk(customers, catalogue);
    RunKeepsOk(Initially(customers, catalogue), steps);
    KnownRecord(Run(Initially(customers, catalogue), steps).state, step.id);
  }

  /** What a retry is told: the delivery as it is now, as a duplicate exactly when it had succeeded before. */
  lemma RetryReplies(customers: seq<Customer>, catalogue: map<nat, nat>, steps: seq<Step>, step: Step)
    requires step.QueueRetry? || step.ManualRetry?
    ensures var s := Run(Initially(customers, catalogue), steps);
            var reply, t := ReplyTo(s, step), Do(s, step).state;
            && (reply.Failure? <==> step.id !in s.state.deliveries)
            && (reply.Failure? ==> reply.error == DeliveryNotFound)
            && (reply.Success? ==>
                  && step.id in t.deliveries && reply.value.order == t.deliveries[step.id].order
                  && reply.value.status == (if reply.value.order.Some? then SUCCEEDED else FAILED)
                  && (reply.value.duplicate <==> s.state.deliveries[step.id].order.Some?))
  {
    hide Ordered;
    InitiallyOk(customers, catalogue);
    RunKeepsOk(Initially(customers, catalogue), steps);
    KnownRecord(Run(Initially(customers, catalogue), steps).state, step.id);
  }
}
