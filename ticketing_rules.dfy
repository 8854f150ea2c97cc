/**
 * The bookkeeping rules of `ThemeParkTicketingSystem`, stated on values:
 * the price of an order, the counter assignment, one payment pass over a
 * counter's queue, a whole payment cycle, and the receipt batch. The class
 * in module TicketingSystem is proved to follow these functions; the lemmas
 * here state what the rules promise.
 */
module TicketingRules {
  import opened JavaInt
  import opened Customers

  /** Price of one ticket, in ringgit. */
  const TICKET_PRICE: int := 15
  /** Orders of at most this many tickets go to the general counters 1 and 2. */
  const SMALL_ORDER: int := 5
  /** `paymentLimit`: the payment cycle stops once this many dialogs were answered. */
  const PAYMENT_LIMIT: nat := 5
  /** The bound of the inner `for` loop: at most this many polls per pass. */
  const PASS_SIZE: nat := 5
  /** `customersToShow`: at most this many customers per receipt. */
  const CUSTOMERS_TO_SHOW: nat := 5

  /** A counter number. Every cursor of the system stays in this range. */
  type CounterNo = k: int | 1 <= k <= 3 witness 1

  /** `(counter % 3) + 1`: the cyclic successor 1 -> 2 -> 3 -> 1. */
  function Next(k: CounterNo): (k': CounterNo)
    ensures k' != k
    ensures k < 3 ==> k' == k + 1
    ensures k == 3 ==> k' == 1
  {
    k % 3 + 1
  }

  /** The counter reached from `k` after `n` rotations. */
  function Rotate(k: CounterNo, n: nat): CounterNo
    decreases n
  {
    if n == 0 then k else Rotate(Next(k), n - 1)
  }

  /** `n` rotations from `k` land on `(k - 1 + n) % 3 + 1`; in particular every third rotation is back at `k`. */
  lemma {:induction false} RotateClosedForm(k: CounterNo, n: nat)
    ensures Rotate(k, n) == (k - 1 + n) % 3 + 1
    decreases n
  {
    if n > 0 {
      RotateClosedForm(Next(k), n - 1);
      if k == 3 {
        assert (3 + n - 1) % 3 == (n - 1) % 3;
      }
    }
  }

  /** `calculateTotalPrice`: tickets times 15 in Java int arithmetic. */
  function CalculateTotalPrice(ticketsPurchased: Int32): (price: Int32)
    ensures (price - ticketsPurchased * TICKET_PRICE) % MODULUS == 0
    ensures MIN_INT32 <= ticketsPurchased * TICKET_PRICE <= MAX_INT32 ==> price == ticketsPurchased * TICKET_PRICE
  {
    Wrap(ticketsPurchased * TICKET_PRICE)
  }

  /**
   * A large enough order overflows: from 143165577 tickets the price the code
   * computes is negative, and from 286331154 it wraps round to small positive
   * values again.
   */
  lemma PriceOverflows()
    ensures CalculateTotalPrice(143165576) > 0 && CalculateTotalPrice(143165577) < 0
    ensures CalculateTotalPrice(286331153) < 0 && CalculateTotalPrice(286331154) == 14
  {
  }

  // ---------------------------------------------------------------- assignment

  /** Result of `assignCounter`: the counter returned and the new `currentCounter`. */
  datatype Assignment = Assignment(counter: CounterNo, cursor: CounterNo)

  /** `assignCounter` on a cursor value. */
  function Assign(ticketsPurchased: int, cursor: CounterNo): (a: Assignment)
    ensures a.counter == 3 <==> ticketsPurchased > SMALL_ORDER
    ensures a.counter == 3 ==> a.cursor == cursor
    ensures a.counter != 3 ==> a.cursor == 3 - a.counter && (a.counter == 1 <==> cursor == 1)
  {
    if ticketsPurchased <= SMALL_ORDER then
      if cursor == 1 then Assignment(1, 2) else Assignment(2, 1)
    else
      Assignment(3, cursor)
  }

  /** The counters handed out by successive `assignCounter` calls for the given orders. */
  function Assignments(tickets: seq<int>, cursor: CounterNo): (counters: seq<CounterNo>)
    decreases |tickets|
  {
    if tickets == [] then []
    else
      var a := Assign(tickets[0], cursor);
      [a.counter] + Assignments(tickets[1..], a.cursor)
  }

  /** The number of small orders (at most five tickets) among `tickets`. */
  function SmallOrders(tickets: seq<int>): nat
    decreases |tickets|
  {
    if tickets == [] then 0
    else (if tickets[0] <= SMALL_ORDER then 1 else 0) + SmallOrders(tickets[1..])
  }

  /**
   * Small orders alternate between counters 1 and 2 by their own count, and a
   * large order always gets counter 3 without disturbing that alternation.
   * A cursor of 3 behaves like 2.
   */
  lemma {:induction false} AssignmentsAlternate(tickets: seq<int>, cursor: CounterNo, i: nat)
    requires i < |tickets|
    ensures |Assignments(tickets, cursor)| == |tickets|
    ensures Assignments(tickets, cursor)[i] ==
              if tickets[i] > SMALL_ORDER then 3
              else if (SmallOrders(tickets[..i]) + (if cursor == 1 then 0 else 1)) % 2 == 0 then 1
              else 2
    decreases i
  {
    var a := Assign(tickets[0], cursor);
    if i == 0 {
      assert tickets[..0] == [];
      AssignmentsLength(tickets[1..], a.cursor);
    } else {
      AssignmentsAlternate(tickets[1..], a.cursor, i - 1);
      assert tickets[..i][1..] == tickets[1..][..i - 1];
    }
  }

  lemma {:induction false} AssignmentsLength(tickets: seq<int>, cursor: CounterNo)
    ensures |Assignments(tickets, cursor)| == |tickets|
    decreases |tickets|
  {
    if tickets != [] {
      AssignmentsLength(tickets[1..], Assign(tickets[0], cursor).cursor);
    }
  }

  /** From the initial cursor 1, the j-th small order goes to counter 1 when j is even and to 2 when j is odd. */
  lemma AlternationFromStart(tickets: seq<int>, i: nat)
    requires i < |tickets| && tickets[i] <= SMALL_ORDER
    ensures |Assignments(tickets, 1)| == |tickets|
    ensures Assignments(tickets, 1)[i] == if SmallOrders(tickets[..i]) % 2 == 0 then 1 else 2
  {
    AssignmentsAlternate(tickets, 1, i);
  }

  /** Orders of 3, 8 and 2 tickets from the initial cursor get counters 1, 3 and 2. */
  lemma RegistrationExample()
    ensures Assignments([3, 8, 2], 1) == [1, 3, 2]
  {
  }

  // ---------------------------------------------------------------- payments

  /**
   * One answer of the payment dialog, with the `Integer.parseInt` after it:
   * the dialog was cancelled, the text was not a 32-bit integer, or it was
   * the amount `n`.
   */
  datatype Response = Cancel | Invalid | Amount(n: Int32)

  /** The scripted answers of one payment cycle: `answers(i)` answers its i-th dialog. */
  type Answers = nat -> Response

  /** What happens to a polled unpaid customer. */
  datatype Outcome = Paid | Requeued | Dropped

  /** The decision taken for one customer and one answer. */
  function Serve(c: CustomerInformation, r: Response): (o: Outcome)
    ensures o == Paid <==> r.Amount? && r.n >= CalculateTotalPrice(c.ticketsPurchased)
    ensures o == Dropped <==> r.Invalid?
  {
    match r
    case Cancel => Requeued
    case Invalid => Dropped
    case Amount(n) => if n < CalculateTotalPrice(c.ticketsPurchased) then Requeued else Paid
  }

  /**
   * The containers a payment cycle works on: the three counter queues (front
   * first), the completed stack (bottom first, top last, as in
   * `java.util.Stack`), and the customers dropped on an invalid amount, who
   * are in no container of the program.
   */
  datatype Desk = Desk(q1: seq<CustomerInformation>, q2: seq<CustomerInformation>, q3: seq<CustomerInformation>,
                       stack: seq<CustomerInformation>, dropped: seq<CustomerInformation>)
  {
    /** The queue that counter number `k` selects. */
    function Queue(k: CounterNo): seq<CustomerInformation>
    {
      if k == 1 then q1 else if k == 2 then q2 else q3
    }

    function Queued(): seq<CustomerInformation>
    {
      q1 + q2 + q3
    }

    /** Everybody the desk holds, queued first, then stacked, then dropped. */
    function All(): seq<CustomerInformation>
    {
      q1 + q2 + q3 + stack + dropped
    }

    /** The desk with counter `k`'s queue replaced by `q`. */
    function WithQueue(k: CounterNo, q: seq<CustomerInformation>): (d': Desk)
      ensures d'.Queue(k) == q && d'.stack == stack && d'.dropped == dropped
      ensures forall j: CounterNo :: j != k ==> d'.Queue(j) == Queue(j)
    {
      if k == 1 then this.(q1 := q) else if k == 2 then this.(q2 := q) else this.(q3 := q)
    }

    /** `c` joins the tail of counter `k`'s queue. */
    function Enqueue(k: CounterNo, c: CustomerInformation): Desk
    {
      WithQueue(k, Queue(k) + [c])
    }

    /** The front of counter `k`'s queue leaves it. */
    function Dequeue(k: CounterNo): Desk
      requires Queue(k) != []
    {
      WithQueue(k, Queue(k)[1..])
    }
  }

  /** Everybody the desk holds, in any container. */
  ghost function Holdings(d: Desk): multiset<CustomerInformation>
  {
    multiset(d.q1) + multiset(d.q2) + multiset(d.q3) + multiset(d.stack) + multiset(d.dropped)
  }

  lemma QueuedMultiset(d: Desk)
    ensures multiset(d.Queued()) == multiset(d.q1) + multiset(d.q2) + multiset(d.q3)
  {
  }

  /**
   * What one pass works on: the selected queue, the completed stack, the
   * dropped customers, and `count`, the number of answers used so far.
   */
  datatype Lane = Lane(queue: seq<CustomerInformation>, stack: seq<CustomerInformation>,
                       dropped: seq<CustomerInformation>, count: nat)

  ghost function LaneHoldings(l: Lane): multiset<CustomerInformation>
  {
    multiset(l.queue) + multiset(l.stack) + multiset(l.dropped)
  }

  /** The lane of counter `k` when `count` answers were used. */
  function LaneOf(d: Desk, k: CounterNo, count: nat): Lane
  {
    Lane(d.Queue(k), d.stack, d.dropped, count)
  }

  /** The desk after a pass over counter `k` left its lane as `l`. */
  function Merge(d: Desk, k: CounterNo, l: Lane): (d': Desk)
    ensures d'.Queue(k) == l.queue && d'.stack == l.stack && d'.dropped == l.dropped
    ensures forall j: CounterNo :: j != k ==> d'.Queue(j) == d.Queue(j)
  {
    if k == 1 then Desk(l.queue, d.q2, d.q3, l.stack, l.dropped)
    else if k == 2 then Desk(d.q1, l.queue, d.q3, l.stack, l.dropped)
    else Desk(d.q1, d.q2, l.queue, l.stack, l.dropped)
  }

  /** One iteration of the inner loop: poll the head of the queue, settle it by the answer `r`, count the answer. */
  function Step(l: Lane, r: Response): (s: Lane)
    requires l.queue != []
    ensures s.count == l.count + 1
    ensures |s.queue| + |s.stack| + |s.dropped| == |l.queue| + |l.stack| + |l.dropped|
  {
    var c, rest := l.queue[0], l.queue[1..];
    match Serve(c, r)
    case Paid => Lane(rest, l.stack + [c], l.dropped, l.count + 1)
    case Requeued => Lane(rest + [c], l.stack, l.dropped, l.count + 1)
    case Dropped => Lane(rest, l.stack, l.dropped + [c], l.count + 1)
  }

  /**
   * The inner `for` loop: polls of the lane's queue until `limit` answers
   * are used, stopping early when the queue is empty; the i-th dialog is
   * answered by `answers(i)`. A pass from count `n` has limit
   * `n + PASS_SIZE`.
   */
  function Pass(l: Lane, limit: nat, answers: Answers): (p: Lane)
    ensures l.count <= p.count
    ensures limit <= p.count || p.queue == []
    decreases limit - l.count
  {
    if limit <= l.count || l.queue == [] then l
    else Pass(Step(l, answers(l.count)), limit, answers)
  }

  /** The state in which the payment loop exits: desk, rotation counter, count, passes made. */
  datatype Ending = Ending(desk: Desk, counter: CounterNo, count: nat, passes: nat)

  datatype Option<T> = None | Some(value: T)

  /**
   * The outer `while (count < paymentLimit)` loop, from counter `k` after
   * `done` passes, allowed at most `fuel` more passes. `None` means the quota
   * was not reached within `fuel` passes; the program would go on looping.
   */
  function Cycle(d: Desk, k: CounterNo, count: nat, done: nat, answers: Answers, fuel: nat): (r: Option<Ending>)
    ensures r.Some? ==> PAYMENT_LIMIT <= r.value.count && done <= r.value.passes <= done + fuel
    decreases fuel
  {
    if count >= PAYMENT_LIMIT then Some(Ending(d, k, count, done))
    else if fuel == 0 then None
    else
      var l := Pass(LaneOf(d, k, count), count + PASS_SIZE, answers);
      Cycle(Merge(d, k, l), Next(k), l.count, done + 1, answers, fuel - 1)
  }

  /**
   * A desk `d'` and count `count'` reached from `d` and `count` by one more
   * pass at counter `k` continue the same cycle at the next counter, one
   * pass of fuel fewer.
   */
  lemma CycleAdvance(d: Desk, k: CounterNo, count: nat, done: nat, fuel: nat, answers: Answers,
                     d': Desk, k': CounterNo, count': nat, done': nat, fuel': nat)
    requires count < PAYMENT_LIMIT && fuel == fuel' + 1 && done' == done + 1 && k' == Next(k)
    requires var l := Pass(LaneOf(d, k, count), count + PASS_SIZE, answers);
      d' == Merge(d, k, l) && count' == l.count
    ensures Cycle(d', k', count', done', answers, fuel') == Cycle(d, k, count, done, answers, fuel)
  {
  }

  /**
   * Every answer of a step moves the polled customer: a sufficient amount
   * pushes it on the stack, a short amount or a cancel puts it back at the
   * tail of the same queue, an invalid amount drops it.
   */
  lemma StepMovesHead(l: Lane, r: Response)
    requires l.queue != []
    ensures var c, rest, s := l.queue[0], l.queue[1..], Step(l, r);
      && (Serve(c, r) == Paid ==> s == Lane(rest, l.stack + [c], l.dropped, l.count + 1))
      && (Serve(c, r) == Requeued ==> s == Lane(rest + [c], l.stack, l.dropped, l.count + 1))
      && (Serve(c, r) == Dropped ==> s == Lane(rest, l.stack, l.dropped + [c], l.count + 1))
  {
  }

  /** A step neither creates nor loses a customer. */
  lemma StepConserves(l: Lane, r: Response)
    requires l.queue != []
    ensures LaneHoldings(Step(l, r)) == LaneHoldings(l)
  {
    assert l.queue == [l.queue[0]] + l.queue[1..];
  }

  /** An invalid answer makes a customer queued once vanish from the queue without reaching the stack. */
  lemma InvalidAnswerLosesCustomer(l: Lane)
    requires l.queue != []
    requires multiset(l.queue)[l.queue[0]] == 1
    requires l.queue[0] !in l.stack
    ensures l.queue[0] !in Step(l, Invalid).queue
    ensures l.queue[0] !in Step(l, Invalid).stack
  {
    assert l.queue == [l.queue[0]] + l.queue[1..];
  }

  /**
   * A pass uses answers up to its limit and at least one when there is room
   * and a customer, and only appends to the stack and the dropped list. The
   * queue loses at most one customer per answer used.
   */
  lemma {:induction false} PassFacts(l: Lane, limit: nat, answers: Answers)
    ensures var l' := Pass(l, limit, answers);
      && l.count <= l'.count
      && (l.count <= limit ==> l'.count <= limit)
      && (l.count < limit && l.queue != [] ==> l.count < l'.count)
      && l.stack <= l'.stack && l.dropped <= l'.dropped
      && |l.queue| <= |l'.queue| + (l'.count - l.count)
    decreases limit - l.count
  {
    if l.count < limit && l.queue != [] {
      StepMovesHead(l, answers(l.count));
      PassFacts(Step(l, answers(l.count)), limit, answers);
    }
  }

  /** A pass neither creates nor loses a customer. */
  lemma {:induction false} PassConserves(l: Lane, limit: nat, answers: Answers)
    ensures LaneHoldings(Pass(l, limit, answers)) == LaneHoldings(l)
    decreases limit - l.count
  {
    if l.count < limit && l.queue != [] {
      StepConserves(l, answers(l.count));
      PassConserves(Step(l, answers(l.count)), limit, answers);
    }
  }

  /** Merging a lane that holds the same customers as counter `k`'s lane keeps the desk's customers. */
  lemma MergeConserves(d: Desk, k: CounterNo, count: nat, l: Lane)
    requires LaneHoldings(l) == LaneHoldings(LaneOf(d, k, count))
    ensures Holdings(Merge(d, k, l)) == Holdings(d)
  {
    var m := Merge(d, k, l);
    forall x ensures Holdings(m)[x] == Holdings(d)[x] {
      assert LaneHoldings(l)[x] == multiset(d.Queue(k))[x] + multiset(d.stack)[x] + multiset(d.dropped)[x];
    }
  }

  /** A desk that differs from `d` only in counter `k`'s lane is `d` with that lane merged in. */
  lemma MergeOfOthers(d: Desk, d': Desk, k: CounterNo, count: nat)
    requires forall j: CounterNo :: j != k ==> d'.Queue(j) == d.Queue(j)
    ensures d' == Merge(d, k, LaneOf(d', k, count))
  {
    assert d'.Queue(1) == d'.q1 && d'.Queue(2) == d'.q2 && d'.Queue(3) == d'.q3;
    assert d.Queue(1) == d.q1 && d.Queue(2) == d.q2 && d.Queue(3) == d.q3;
  }

  lemma QueuedLength(d: Desk)
    ensures |d.Queued()| == |d.Queue(1)| + |d.Queue(2)| + |d.Queue(3)|
  {
  }

  /**
   * When the cycle ends having started below the quota (or at most one pass
   * beyond it), at least five and at most nine answers were used, and at
   * least one pass was made when it started below the quota.
   */
  lemma {:induction false} CycleCounts(d: Desk, k: CounterNo, count: nat, done: nat, answers: Answers, fuel: nat)
    requires Cycle(d, k, count, done, answers, fuel).Some?
    requires count < PAYMENT_LIMIT + PASS_SIZE
    ensures var e := Cycle(d, k, count, done, answers, fuel).value;
      && PAYMENT_LIMIT <= e.count < PAYMENT_LIMIT + PASS_SIZE
      && done <= e.passes && (count < PAYMENT_LIMIT ==> done < e.passes)
    decreases fuel
  {
    if count < PAYMENT_LIMIT {
      var l := Pass(LaneOf(d, k, count), count + PASS_SIZE, answers);
      OnePassFacts(d, k, count, answers);
      assert Cycle(d, k, count, done, answers, fuel) == Cycle(Merge(d, k, l), Next(k), l.count, done + 1, answers, fuel - 1);
      CycleCounts(Merge(d, k, l), Next(k), l.count, done + 1, answers, fuel - 1);
    }
  }

  /** The cycle ends at the start counter rotated once per pass. */
  lemma {:induction false} CycleRotates(d: Desk, k: CounterNo, count: nat, done: nat, answers: Answers, fuel: nat)
    requires Cycle(d, k, count, done, answers, fuel).Some?
    ensures var e := Cycle(d, k, count, done, answers, fuel).value;
      done <= e.passes && e.counter == Rotate(k, e.passes - done)
    decreases fuel
  {
    if count < PAYMENT_LIMIT {
      var l := Pass(LaneOf(d, k, count), count + PASS_SIZE, answers);
      var d' := Merge(d, k, l);
      assert Cycle(d, k, count, done, answers, fuel) == Cycle(d', Next(k), l.count, done + 1, answers, fuel - 1);
      CycleRotates(d', Next(k), l.count, done + 1, answers, fuel - 1);
      var e := Cycle(d', Next(k), l.count, done + 1, answers, fuel - 1).value;
      assert Rotate(k, e.passes - done) == Rotate(Next(k), e.passes - (done + 1));
    }
  }

  /** Over a whole cycle the stack and the dropped list only grow at their ends. */
  lemma {:induction false} CycleGrows(d: Desk, k: CounterNo, count: nat, done: nat, answers: Answers, fuel: nat)
    requires Cycle(d, k, count, done, answers, fuel).Some?
    ensures var e := Cycle(d, k, count, done, answers, fuel).value;
      d.stack <= e.desk.stack && d.dropped <= e.desk.dropped
    decreases fuel
  {
    if count < PAYMENT_LIMIT {
      var l := Pass(LaneOf(d, k, count), count + PASS_SIZE, answers);
      OnePassFacts(d, k, count, answers);
      assert Cycle(d, k, count, done, answers, fuel) == Cycle(Merge(d, k, l), Next(k), l.count, done + 1, answers, fuel - 1);
      CycleGrows(Merge(d, k, l), Next(k), l.count, done + 1, answers, fuel - 1);
    }
  }

  /** One pass from `count` ends with a count between `count` and `count + PASS_SIZE`, and only appends to the stack and the dropped list. */
  lemma OnePassFacts(d: Desk, k: CounterNo, count: nat, answers: Answers)
    ensures var d' := Merge(d, k, Pass(LaneOf(d, k, count), count + PASS_SIZE, answers));
      var l := Pass(LaneOf(d, k, count), count + PASS_SIZE, answers);
      && count <= l.count <= count + PASS_SIZE
      && d.stack <= d'.stack && d.dropped <= d'.dropped
  {
    var l0 := LaneOf(d, k, count);
    PassFacts(l0, count + PASS_SIZE, answers);
    assert l0.count == count && l0.stack == d.stack && l0.dropped == d.dropped;
  }

  /** A whole cycle neither creates nor loses a customer. */
  lemma {:induction false} CycleConserves(d: Desk, k: CounterNo, count: nat, done: nat, answers: Answers, fuel: nat)
    requires Cycle(d, k, count, done, answers, fuel).Some?
    ensures Holdings(Cycle(d, k, count, done, answers, fuel).value.desk) == Holdings(d)
    decreases fuel
  {
    if count < PAYMENT_LIMIT {
      var l := Pass(LaneOf(d, k, count), count + PASS_SIZE, answers);
      var d' := Merge(d, k, l);
      OnePassConserves(d, k, count, answers);
      assert Cycle(d, k, count, done, answers, fuel) == Cycle(d', Next(k), l.count, done + 1, answers, fuel - 1);
      CycleConserves(d', Next(k), l.count, done + 1, answers, fuel - 1);
    }
  }

  /** One pass neither creates nor loses a customer of the desk. */
  lemma OnePassConserves(d: Desk, k: CounterNo, count: nat, answers: Answers)
    ensures Holdings(Merge(d, k, Pass(LaneOf(d, k, count), count + PASS_SIZE, answers))) == Holdings(d)
  {
    var l0 := LaneOf(d, k, count);
    PassConserves(l0, count + PASS_SIZE, answers);
    MergeConserves(d, k, count, Pass(l0, count + PASS_SIZE, answers));
  }

  /**
   * Conservation over a payment cycle that starts with nobody dropped: the
   * customers queued at the start are the customers queued at the end, plus
   * those newly pushed on the stack, plus those dropped on an invalid amount.
   */
  lemma CycleConservesCustomers(d: Desk, k: CounterNo, answers: Answers, fuel: nat)
    requires d.dropped == []
    requires Cycle(d, k, 0, 0, answers, fuel).Some?
    ensures var e := Cycle(d, k, 0, 0, answers, fuel).value.desk;
      && d.stack <= e.stack
      && multiset(d.Queued()) == multiset(e.Queued()) + multiset(e.stack[|d.stack|..]) + multiset(e.dropped)
  {
    CycleGrows(d, k, 0, 0, answers, fuel);
    CycleConserves(d, k, 0, 0, answers, fuel);
    SplitHoldings(d, Cycle(d, k, 0, 0, answers, fuel).value.desk);
  }

  /**
   * What a payment cycle started by `processPayments` (no answer used, nobody
   * dropped) promises when it ends: between five and nine answers used, at
   * least one pass made, the cursor rotated once per pass, the old stack kept
   * as the bottom of the new one, and every customer queued at the start
   * either still queued, newly stacked or dropped.
   */
  lemma PaymentCycleSummary(d: Desk, k: CounterNo, answers: Answers, fuel: nat)
    requires d.dropped == []
    requires Cycle(d, k, 0, 0, answers, fuel).Some?
    ensures var e := Cycle(d, k, 0, 0, answers, fuel).value;
      && PAYMENT_LIMIT <= e.count < PAYMENT_LIMIT + PASS_SIZE
      && 1 <= e.passes && e.counter == Rotate(k, e.passes)
      && d.stack <= e.desk.stack
      && multiset(d.Queued()) == multiset(e.desk.Queued()) + multiset(e.desk.stack[|d.stack|..]) + multiset(e.desk.dropped)
  {
    CycleCounts(d, k, 0, 0, answers, fuel);
    CycleRotates(d, k, 0, 0, answers, fuel);
    CycleConservesCustomers(d, k, answers, fuel);
  }

  /** A desk that holds what `d` held, with `d`'s stack as a prefix of its own and nobody dropped at the start, splits `d`'s queued customers three ways. */
  lemma SplitHoldings(d: Desk, e: Desk)
    requires d.dropped == [] && d.stack <= e.stack
    requires Holdings(e) == Holdings(d)
    ensures multiset(d.Queued()) == multiset(e.Queued()) + multiset(e.stack[|d.stack|..]) + multiset(e.dropped)
  {
    QueuedMultiset(d);
    QueuedMultiset(e);
    assert e.stack == d.stack + e.stack[|d.stack|..];
    var pushed := multiset(e.stack[|d.stack|..]);
    assert multiset(e.stack) == multiset(d.stack) + pushed;
    var before, after := multiset(d.Queued()), multiset(e.Queued()) + pushed + multiset(e.dropped);
    forall x ensures before[x] == after[x] {
      assert Holdings(d)[x] == before[x] + multiset(d.stack)[x];
      assert Holdings(e)[x] == after[x] + multiset(d.stack)[x];
    }
  }

  /** Once the cycle ends within some number of passes, more passes change nothing. */
  lemma {:induction false} CycleFuelIrrelevant(d: Desk, k: CounterNo, count: nat, done: nat, answers: Answers, fuel: nat, more: nat)
    requires Cycle(d, k, count, done, answers, fuel).Some?
    requires fuel <= more
    ensures Cycle(d, k, count, done, answers, more) == Cycle(d, k, count, done, answers, fuel)
    decreases fuel
  {
    if count < PAYMENT_LIMIT {
      var l := Pass(LaneOf(d, k, count), count + PASS_SIZE, answers);
      CycleFuelIrrelevant(Merge(d, k, l), Next(k), l.count, done + 1, answers, fuel - 1, more - 1);
    }
  }

  /** How many empty queues the rotation meets from `k` before a non-empty one (2 when all are empty). */
  function EmptyAhead(d: Desk, k: CounterNo): nat
  {
    if d.Queue(k) != [] then 0 else if d.Queue(Next(k)) != [] then 1 else 2
  }

  /**
   * With at least as many customers queued as answers still missing, the
   * cycle reaches the quota whatever the answers: some number of passes
   * suffices.
   */
  lemma {:induction false} QuotaReached(d: Desk, k: CounterNo, count: nat, done: nat, answers: Answers) returns (fuel: nat)
    requires |d.Queued()| + count >= PAYMENT_LIMIT
    ensures Cycle(d, k, count, done, answers, fuel).Some?
    decreases if count < PAYMENT_LIMIT then PAYMENT_LIMIT - count else 0, EmptyAhead(d, k)
  {
    if count >= PAYMENT_LIMIT {
      fuel := 0;
    } else {
      var l := Pass(LaneOf(d, k, count), count + PASS_SIZE, answers);
      var d' := Merge(d, k, l);
      QueuedLength(d);
      QueuedLength(d');
      if d.Queue(k) == [] {
        assert l == LaneOf(d, k, count);
        assert d' == d;
        assert d.Queue(Next(k)) == [] ==> d.Queue(Next(Next(k))) != [];
        var f := QuotaReached(d, Next(k), count, done + 1, answers);
        fuel := f + 1;
      } else {
        PassFacts(LaneOf(d, k, count), count + PASS_SIZE, answers);
        assert count < l.count;
        assert |d'.Queued()| + l.count >= |d.Queued()| + count;
        var f := QuotaReached(d', Next(k), l.count, done + 1, answers);
        fuel := f + 1;
      }
    }
  }

  /** With every queue empty below the quota, no number of passes ends the cycle: the program loops forever. */
  lemma {:induction false} EmptyQueuesNeverReachQuota(d: Desk, k: CounterNo, count: nat, done: nat, answers: Answers, fuel: nat)
    requires d.Queued() == [] && count < PAYMENT_LIMIT
    ensures Cycle(d, k, count, done, answers, fuel).None?
    decreases fuel
  {
    if fuel > 0 {
      assert LaneOf(d, k, count).queue == [];
      assert Merge(d, k, LaneOf(d, k, count)) == d;
      EmptyQueuesNeverReachQuota(d, Next(k), count, done + 1, answers, fuel - 1);
    }
  }

  /** The largest amount pays for any order. */
  predicate PaysAll(r: Response)
  {
    r == Amount(MAX_INT32 as Int32)
  }

  /** A single queued customer who pays at once leaves the cycle looping forever. */
  lemma LonePayerNeverReachesQuota(c: CustomerInformation, answers: Answers, fuel: nat)
    requires PaysAll(answers(0))
    ensures Cycle(Desk([c], [], [], [], []), 1, 0, 0, answers, fuel).None?
  {
    var d := Desk([c], [], [], [], []);
    if fuel > 0 {
      var l := Step(LaneOf(d, 1, 0), answers(0));
      assert l == Lane([], [c], [], 1);
      assert Pass(LaneOf(d, 1, 0), PASS_SIZE, answers) == l;
      EmptyQueuesNeverReachQuota(Merge(d, 1, l), 2, 1, 1, answers, fuel - 1);
    }
  }

  /** When every answer up to the limit pays and the queue is long enough, the pass moves that many customers from its front onto the stack in order. */
  lemma {:induction false} AllPayPass(l: Lane, limit: nat, answers: Answers)
    requires l.count <= limit <= l.count + |l.queue|
    requires forall i :: l.count <= i < limit ==> PaysAll(answers(i))
    ensures var n := limit - l.count;
      Pass(l, limit, answers) == Lane(l.queue[n..], l.stack + l.queue[..n], l.dropped, limit)
    decreases limit - l.count
  {
    var q, n := l.queue, limit - l.count;
    if n > 0 {
      StepMovesHead(l, answers(l.count));
      AllPayPass(Step(l, answers(l.count)), limit, answers);
      assert q[1..][n - 1..] == q[n..];
      assert l.stack + [q[0]] + q[1..][..n - 1] == l.stack + q[..n];
    } else {
      assert q[0..] == q;
      assert l.stack + q[..0] == l.stack;
    }
  }

  /**
   * With five or more customers at the current counter and the first five
   * answers paying, one pass ends the cycle: exactly those five move to the
   * stack, drawn from the front of that queue, and the rotation stops at the
   * next counter.
   */
  lemma FullQueueCycle(d: Desk, k: CounterNo, answers: Answers)
    requires |d.Queue(k)| >= PASS_SIZE
    requires forall i :: 0 <= i < PASS_SIZE ==> PaysAll(answers(i))
    ensures Cycle(d, k, 0, 0, answers, 1) ==
              Some(Ending(Merge(d, k, Lane(d.Queue(k)[PASS_SIZE..], d.stack + d.Queue(k)[..PASS_SIZE], d.dropped, PASS_SIZE)),
                          Next(k), PASS_SIZE, 1))
  {
    AllPayPass(LaneOf(d, k, 0), PASS_SIZE, answers);
  }

  /**
   * The rotation cursor is shared: five paying customers at counter 2 leave
   * the cursor at 3, and the next small order then goes to counter 2.
   */
  lemma PaymentsSteerNextRegistration(d: Desk, answers: Answers, ticketsPurchased: int)
    requires |d.q2| >= PASS_SIZE
    requires forall i :: 0 <= i < PASS_SIZE ==> PaysAll(answers(i))
    requires ticketsPurchased <= SMALL_ORDER
    ensures Cycle(d, 2, 0, 0, answers, 1).Some?
    ensures Cycle(d, 2, 0, 0, answers, 1).value.counter == 3
    ensures Assign(ticketsPurchased, Cycle(d, 2, 0, 0, answers, 1).value.counter) == Assignment(2, 1)
  {
    FullQueueCycle(d, 2, answers);
  }

  /** Cancels keep a lone customer circling its queue: each poll uses one answer and moves nobody. */
  lemma {:induction false} CancelsCycleHead(l: Lane, limit: nat, answers: Answers)
    requires |l.queue| == 1 && l.count <= limit
    requires forall i :: l.count <= i < limit ==> answers(i) == Cancel
    ensures Pass(l, limit, answers) == l.(count := limit)
    decreases limit - l.count
  {
    if l.count < limit {
      assert l.queue[1..] + [l.queue[0]] == l.queue;
      assert Step(l, answers(l.count)) == l.(count := l.count + 1);
      CancelsCycleHead(l.(count := l.count + 1), limit, answers);
    }
  }

  /**
   * The quota is only checked between passes: four payments at counter 1
   * followed by five cancels at counter 2 end the cycle with nine answers used.
   */
  lemma CountCanOvershoot(a: CustomerInformation, b: CustomerInformation, c: CustomerInformation,
                          e: CustomerInformation, f: CustomerInformation, answers: Answers)
    requires forall i :: 0 <= i < 4 ==> PaysAll(answers(i))
    requires forall i :: 4 <= i < 9 ==> answers(i) == Cancel
    ensures Cycle(Desk([a, b, c, e], [f], [], [], []), 1, 0, 0, answers, 2).Some?
    ensures Cycle(Desk([a, b, c, e], [f], [], [], []), 1, 0, 0, answers, 2).value.count == 9
  {
    var d := Desk([a, b, c, e], [f], [], [], []);
    var l0 := LaneOf(d, 1, 0);
    AllPayPass(l0, 4, answers);
    var l1 := Lane([], [a, b, c, e], [], 4);
    assert l0.queue[4..] == [] && l0.queue[..4] == [a, b, c, e];
    PassSplit(l0, 4, PASS_SIZE, answers);
    assert Pass(l0, PASS_SIZE, answers) == l1;
    var d1 := Merge(d, 1, l1);
    CancelsCycleHead(LaneOf(d1, 2, 4), 4 + PASS_SIZE, answers);
  }

  /** Polling up to `m` and then on up to `n` is polling up to `n`. */
  lemma {:induction false} PassSplit(l: Lane, m: nat, n: nat, answers: Answers)
    requires m <= n
    ensures Pass(l, n, answers) == Pass(Pass(l, m, answers), n, answers)
    decreases m - l.count
  {
    if l.count < m && l.queue != [] {
      PassSplit(Step(l, answers(l.count)), m, n, answers);
    }
  }

  // ---------------------------------------------------------------- distinct customers

  /** No element occurs twice in `s`. */
  predicate NoDup<T(==)>(s: seq<T>)
  {
    forall i, j | 0 <= i < j < |s| :: s[i] != s[j]
  }

  /** Inserting an element that `a + b` lacks between `a` and `b` creates no duplicate. */
  lemma NoDupInsert<T>(a: seq<T>, b: seq<T>, x: T)
    requires NoDup(a + b) && x !in a + b
    ensures NoDup(a + [x] + b)
  {
    var s, t := a + b, a + [x] + b;
    forall i, j | 0 <= i < j < |t| ensures t[i] != t[j] {
      if j < |a| {
        assert t[i] == s[i] && t[j] == s[j];
      } else if j == |a| {
        assert t[i] == s[i] && t[j] == x;
      } else if i < |a| {
        assert t[i] == s[i] && t[j] == s[j - 1];
      } else if i == |a| {
        assert t[i] == x && t[j] == s[j - 1];
      } else {
        assert t[i] == s[i - 1] && t[j] == s[j - 1];
      }
    }
  }

  /** Taking an element out of a sequence without duplicates leaves one without duplicates or that element. */
  lemma NoDupRemove<T>(a: seq<T>, b: seq<T>, x: T)
    requires NoDup(a + [x] + b)
    ensures NoDup(a + b) && x !in a + b
  {
    var s, t := a + b, a + [x] + b;
    assert t[|a|] == x;
    forall i, j | 0 <= i < j < |s| ensures s[i] != s[j] {
      if j < |a| {
        assert t[i] == s[i] && t[j] == s[j];
      } else if i < |a| {
        assert t[i] == s[i] && t[j + 1] == s[j];
      } else {
        assert t[i + 1] == s[i] && t[j + 1] == s[j];
      }
    }
    forall i | 0 <= i < |s| ensures s[i] != x {
      if i < |a| {
        assert t[i] == s[i];
      } else {
        assert t[i + 1] == s[i];
      }
    }
  }

  /** The desk holds a customer exactly when one of its containers does. */
  lemma HeldSomewhere(d: Desk, c: CustomerInformation)
    ensures c in d.All() <==> c in d.q1 || c in d.q2 || c in d.q3 || c in d.stack || c in d.dropped
  {
    assert d.All() == d.q1 + d.q2 + d.q3 + d.stack + d.dropped;
  }

  /** The holdings of a desk around counter `k`'s queue: queued before it, and everything after it. */
  function Before(d: Desk, k: CounterNo): seq<CustomerInformation>
  {
    if k == 1 then [] else if k == 2 then d.q1 else d.q1 + d.q2
  }

  function After(d: Desk, k: CounterNo): seq<CustomerInformation>
  {
    if k == 1 then d.q2 + d.q3 + d.stack + d.dropped
    else if k == 2 then d.q3 + d.stack + d.dropped
    else d.stack + d.dropped
  }

  /** Counter `k`'s queue sits between `Before` and `After`, which replacing that queue leaves alone. */
  lemma Around(d: Desk, k: CounterNo, q: seq<CustomerInformation>)
    ensures d.All() == Before(d, k) + d.Queue(k) + After(d, k)
    ensures Before(d.WithQueue(k, q), k) == Before(d, k) && After(d.WithQueue(k, q), k) == After(d, k)
  {
  }

  /** Polling counter `k`'s queue takes its front out from between `Before` and the rest. */
  lemma DequeueSplits(d: Desk, k: CounterNo)
    requires d.Queue(k) != []
    ensures var c, b := d.Queue(k)[0], d.Queue(k)[1..] + After(d, k);
      d.All() == Before(d, k) + [c] + b && d.Dequeue(k).All() == Before(d, k) + b
  {
    var c, rest := d.Queue(k)[0], d.Queue(k)[1..];
    Around(d, k, rest);
    Around(d.Dequeue(k), k, rest);
    assert d.Queue(k) == [c] + rest;
    Regroup(Before(d, k), c, rest, After(d, k));
  }

  lemma Regroup<T>(a: seq<T>, c: T, rest: seq<T>, b: seq<T>)
    ensures a + ([c] + rest) + b == a + [c] + (rest + b)
    ensures a + rest + b == a + (rest + b)
  {
  }

  /** Polling the front of counter `k`'s queue leaves a desk that has no duplicate and does not hold the polled customer. */
  lemma PollKeepsNoDup(d: Desk, k: CounterNo)
    requires NoDup(d.All()) && d.Queue(k) != []
    ensures NoDup(d.Dequeue(k).All()) && d.Queue(k)[0] !in d.Dequeue(k).All()
  {
    DequeueSplits(d, k);
    NoDupRemove(Before(d, k), d.Queue(k)[1..] + After(d, k), d.Queue(k)[0]);
  }

  /** Queueing a customer the desk does not hold keeps it free of duplicates. */
  lemma EnqueueKeepsNoDup(d: Desk, k: CounterNo, c: CustomerInformation)
    requires NoDup(d.All()) && c !in d.All()
    ensures NoDup(d.Enqueue(k, c).All())
  {
    var d' := d.Enqueue(k, c);
    Around(d, k, d.Queue(k) + [c]);
    Around(d', k, d.Queue(k) + [c]);
    var a, b := Before(d, k), After(d, k);
    assert a + (d.Queue(k) + [c]) + b == (a + d.Queue(k)) + [c] + b;
    NoDupInsert(a + d.Queue(k), b, c);
  }

  /** Stacking a customer the desk does not hold keeps it free of duplicates. */
  lemma PushKeepsNoDup(d: Desk, c: CustomerInformation)
    requires NoDup(d.All()) && c !in d.All()
    ensures NoDup(d.(stack := d.stack + [c]).All())
  {
    var a, b := d.q1 + d.q2 + d.q3 + d.stack, d.dropped;
    assert d.All() == a + b && d.(stack := d.stack + [c]).All() == a + [c] + b;
    NoDupInsert(a, b, c);
  }

  /** Dropping a customer the desk does not hold keeps it free of duplicates. */
  lemma DropKeepsNoDup(d: Desk, c: CustomerInformation)
    requires NoDup(d.All()) && c !in d.All()
    ensures NoDup(d.(dropped := d.dropped + [c]).All())
  {
    var a, b: seq<CustomerInformation> := d.All(), [];
    assert d.All() == a + b && d.(dropped := d.dropped + [c]).All() == a + [c] + b;
    NoDupInsert(a, b, c);
  }

  lemma NoDupPrefix<T>(a: seq<T>, b: seq<T>)
    requires NoDup(a + b)
    ensures NoDup(a)
  {
    forall i, j | 0 <= i < j < |a| ensures a[i] != a[j] {
      assert (a + b)[i] == a[i] && (a + b)[j] == a[j];
    }
  }

  /** Forgetting the dropped customers keeps a desk free of duplicates. */
  lemma ForgetDropped(d: Desk)
    requires NoDup(d.All())
    ensures NoDup(d.(dropped := []).All())
  {
    assert d.(dropped := []).All() + d.dropped == d.All();
    NoDupPrefix(d.(dropped := []).All(), d.dropped);
  }

  // ---------------------------------------------------------------- receipts

  /** What one receipt entry shows. */
  datatype ReceiptLine = ReceiptLine(custId: Int32, custName: string, tickets: Int32, totalPrice: Int32)

  function ReceiptLineOf(c: CustomerInformation): (line: ReceiptLine)
  {
    ReceiptLine(c.custId, c.custName, c.ticketsPurchased, CalculateTotalPrice(c.ticketsPurchased))
  }

  /** The receipt of a batch of customers, one entry each, in order. */
  function ReceiptLines(s: seq<CustomerInformation>): (lines: seq<ReceiptLine>)
  {
    seq(|s|, i requires 0 <= i < |s| => ReceiptLineOf(s[i]))
  }

  /** Listing one more customer of `q` extends the receipt by that customer's line. */
  lemma ReceiptLinesSnoc(q: seq<CustomerInformation>, i: nat)
    requires i < |q|
    ensures ReceiptLines(q[..i + 1]) == ReceiptLines(q[..i]) + [ReceiptLineOf(q[i])]
    ensures q[i..][0] == q[i] && q[i..][1..] == q[i + 1..]
  {
    assert q[..i + 1] == q[..i] + [q[i]];
  }

  /** How many customers a receipt for a queue of `size` shows: `Math.min(5, size)`. */
  function BatchSize(size: nat): (n: nat)
    ensures n <= CUSTOMERS_TO_SHOW && n <= size
    ensures n == CUSTOMERS_TO_SHOW || n == size
  {
    if CUSTOMERS_TO_SHOW < size then CUSTOMERS_TO_SHOW else size
  }

  /** A receipt shows each customer's id, name and tickets, and a price of 15 per ticket when no overflow occurs. */
  lemma ReceiptShowsPrice(s: seq<CustomerInformation>, i: nat)
    requires i < |s|
    requires MIN_INT32 <= s[i].ticketsPurchased * TICKET_PRICE <= MAX_INT32
    ensures |ReceiptLines(s)| == |s|
    ensures ReceiptLines(s)[i] == ReceiptLine(s[i].custId, s[i].custName, s[i].ticketsPurchased, s[i].ticketsPurchased * 15)
  {
  }
}
