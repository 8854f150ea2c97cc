/**
 * The `ThemeParkTicketingSystem` object without its window: the customer
 * list, the three counter queues, the stack of paid customers, the two
 * tallies and the two rotation cursors, with the operations behind the
 * "Add Customer", "Process Payments" and "Show Receipt" buttons. Each
 * operation is proved to follow the functions of module TicketingRules.
 */
module TicketingSystem {
  import opened JavaInt
  import opened Customers
  import opened TicketingRules

  /** The queue a customer's `counter` field sends it to in `addCustomerToList`: 1, 2, and 3 for anything else. */
  function Route(counter: int): (k: CounterNo)
    ensures counter == 1 || counter == 2 ==> k == counter
    ensures counter != 1 && counter != 2 ==> k == 3
  {
    if counter == 1 then 1 else if counter == 2 then 2 else 3
  }

  /** A customer waiting in the queue of counter `k`: unpaid, and routed there by its counter field. */
  predicate Belongs(c: CustomerInformation, k: CounterNo)
    reads c
  {
    !c.paid && Route(c.counter) == k
  }

  /** Every customer of `q` waits for counter `k`. */
  ghost predicate Waiting(q: seq<CustomerInformation>, k: CounterNo)
    reads q
  {
    forall c :: c in q ==> Belongs(c, k)
  }

  ghost predicate AllPaid(s: seq<CustomerInformation>)
    reads s
  {
    forall c :: c in s ==> c.paid
  }

  ghost predicate NonePaid(s: seq<CustomerInformation>)
    reads s
  {
    forall c :: c in s ==> !c.paid
  }

  /** The customers of `q`, as a set, so that a frame can name their fields. */
  function Members(q: seq<CustomerInformation>): set<CustomerInformation>
  {
    set c | c in q
  }

  class ThemeParkTicketingSystem {
    var customerList: seq<CustomerInformation>
    var counter1Queue: seq<CustomerInformation>
    var counter2Queue: seq<CustomerInformation>
    var counter3Queue: seq<CustomerInformation>
    /** The stack of paid customers; its top is the last element. */
    var completeStack: seq<CustomerInformation>
    var counter1Count: Int32
    var counter2Count: Int32
    /** The rotation cursor shared by counter assignment and payment processing. */
    var currentCounter: CounterNo
    var receiptCounter: CounterNo

    /** The queue that counter number `k` selects. */
    function QueueAt(k: CounterNo): seq<CustomerInformation>
      reads this`counter1Queue, this`counter2Queue, this`counter3Queue
    {
      if k == 1 then counter1Queue else if k == 2 then counter2Queue else counter3Queue
    }

    function Queued(): seq<CustomerInformation>
      reads this`counter1Queue, this`counter2Queue, this`counter3Queue
    {
      counter1Queue + counter2Queue + counter3Queue
    }

    /** The queues and the stack as a desk, with `dropped` the customers a payment run has lost so far. */
    function Holding(dropped: seq<CustomerInformation>): (d: Desk)
      reads this`counter1Queue, this`counter2Queue, this`counter3Queue, this`completeStack
    {
      Desk(counter1Queue, counter2Queue, counter3Queue, completeStack, dropped)
    }

    lemma HoldingQueues(dropped: seq<CustomerInformation>)
      ensures forall k: CounterNo :: Holding(dropped).Queue(k) == QueueAt(k)
    {
    }

    /**
     * The object invariant: every queued customer is unpaid and sits in the
     * queue its counter field names, every stacked customer has paid, and no
     * customer is held twice.
     */
    ghost predicate Valid()
      reads this`counter1Queue, this`counter2Queue, this`counter3Queue, this`completeStack
      reads counter1Queue, counter2Queue, counter3Queue, completeStack
    {
      && Waiting(counter1Queue, 1) && Waiting(counter2Queue, 2) && Waiting(counter3Queue, 3)
      && AllPaid(completeStack)
      && NoDup(Holding([]).All())
    }

    /** Empty list, queues and stack; both tallies 0; both cursors at counter 1. */
    constructor ()
      ensures customerList == [] && Queued() == [] && completeStack == []
      ensures counter1Count == 0 && counter2Count == 0
      ensures currentCounter == 1 && receiptCounter == 1
      ensures Valid()
    {
      customerList := [];
      counter1Queue := [];
      counter2Queue := [];
      counter3Queue := [];
      completeStack := [];
      counter1Count := 0;
      counter2Count := 0;
      currentCounter := 1;
      receiptCounter := 1;
    }

    /** `assignCounter`, following `Assign`. */
    method AssignCounter(ticketsPurchased: Int32) returns (counter: CounterNo)
      modifies this`currentCounter
      ensures Assignment(counter, currentCounter) == Assign(ticketsPurchased, old(currentCounter))
      ensures ticketsPurchased > SMALL_ORDER ==> counter == 3 && currentCounter == old(currentCounter)
      ensures ticketsPurchased <= SMALL_ORDER && old(currentCounter) == 1 ==> counter == 1 && currentCounter == 2
      ensures ticketsPurchased <= SMALL_ORDER && old(currentCounter) != 1 ==> counter == 2 && currentCounter == 1
    {
      if ticketsPurchased <= SMALL_ORDER {
        if currentCounter == 1 {
          currentCounter := 2;
          return 1;
        } else {
          currentCounter := 1;
          return 2;
        }
      } else {
        return 3;
      }
    }

    /**
     * `addCustomerToList`: appends the customer to the list and to exactly
     * the queue its counter field names, counting it in that counter's tally
     * (counter 3 has none). The invariant is kept for an unpaid customer the
     * system does not hold yet.
     */
    method AddCustomerToList(customer: CustomerInformation)
      modifies this`customerList, this`counter1Queue, this`counter2Queue, this`counter3Queue
      modifies this`counter1Count, this`counter2Count
      ensures customerList == old(customerList) + [customer]
      ensures QueueAt(Route(customer.counter)) == old(QueueAt(Route(customer.counter))) + [customer]
      ensures forall j: CounterNo :: j != Route(customer.counter) ==> QueueAt(j) == old(QueueAt(j))
      ensures counter1Count == if customer.counter == 1 then Increment(old(counter1Count)) else old(counter1Count)
      ensures counter2Count == if customer.counter == 2 then Increment(old(counter2Count)) else old(counter2Count)
      ensures old(Valid()) && !customer.paid && customer !in old(Queued()) && customer !in completeStack ==> Valid()
    {
      ghost var k := Route(customer.counter);
      customerList := customerList + [customer];
      if customer.counter == 1 {
        Offer(1, customer, []);
        counter1Count := Increment(counter1Count);
      } else if customer.counter == 2 {
        Offer(2, customer, []);
        counter2Count := Increment(counter2Count);
      } else {
        Offer(3, customer, []);
      }
      if old(Valid()) && !customer.paid && customer !in old(Queued()) && customer !in completeStack {
        ghost var d := old(Holding([]));
        HeldSomewhere(d, customer);
        EnqueueKeepsNoDup(d, k, customer);
        assert Holding([]) == d.Enqueue(k, customer);
        WaitingAppend(old(QueueAt(k)), k, customer);
      }
    }

    /**
     * The "Add Customer" action after its input is parsed: assign a counter,
     * create the customer with the next id, record the counter on it, and
     * add it to the list and its queue. `ids` stands for the static id
     * field, so every call of the running program passes the same generator.
     */
    method Register(ids: CustomerIdGenerator, custName: string, ticketsPurchased: Int32)
      returns (customer: CustomerInformation)
      requires Valid()
      modifies this, ids
      ensures fresh(customer)
      ensures customer.custId == old(ids.nextCustomerId) && ids.nextCustomerId == Increment(old(ids.nextCustomerId))
      ensures customer.custName == custName && customer.ticketsPurchased == ticketsPurchased && !customer.paid
      ensures var a := Assign(ticketsPurchased, old(currentCounter));
        && customer.counter == a.counter && currentCounter == a.cursor
        && QueueAt(a.counter) == old(QueueAt(a.counter)) + [customer]
        && forall j: CounterNo :: j != a.counter ==> QueueAt(j) == old(QueueAt(j))
      ensures customerList == old(customerList) + [customer]
      ensures counter1Count == if customer.counter == 1 then Increment(old(counter1Count)) else old(counter1Count)
      ensures counter2Count == if customer.counter == 2 then Increment(old(counter2Count)) else old(counter2Count)
      ensures completeStack == old(completeStack) && receiptCounter == old(receiptCounter)
      ensures Valid()
    {
      var counter := AssignCounter(ticketsPurchased);
      assert Valid();
      customer := new CustomerInformation(ids, custName, ticketsPurchased);
      assert Valid() && customer !in Queued() && customer !in completeStack;
      customer.SetCounter(counter);
      assert Valid();
      AddCustomerToList(customer);
    }

    /** `Queue.poll` on the queue of counter `k`, which is not empty. */
    method Poll(k: CounterNo, ghost dropped: seq<CustomerInformation>) returns (customer: CustomerInformation)
      requires QueueAt(k) != []
      modifies this`counter1Queue, this`counter2Queue, this`counter3Queue
      ensures customer == old(QueueAt(k))[0] && QueueAt(k) == old(QueueAt(k))[1..]
      ensures forall j: CounterNo :: j != k ==> QueueAt(j) == old(QueueAt(j))
      ensures Holding(dropped) == old(Holding(dropped)).Dequeue(k)
      ensures old(Valid()) ==> Valid()
    {
      ghost var held := Holding([]);
      HoldingQueues([]);
      if Valid() {
        PollKeepsNoDup(held, k);
        WaitingTail(QueueAt(k), k);
      }
      customer := QueueAt(k)[0];
      if k == 1 {
        counter1Queue := counter1Queue[1..];
      } else if k == 2 {
        counter2Queue := counter2Queue[1..];
      } else {
        counter3Queue := counter3Queue[1..];
      }
    }

    /** `Queue.add` on the queue of counter `k`. */
    method Offer(k: CounterNo, customer: CustomerInformation, ghost dropped: seq<CustomerInformation>)
      modifies this`counter1Queue, this`counter2Queue, this`counter3Queue
      ensures QueueAt(k) == old(QueueAt(k)) + [customer]
      ensures forall j: CounterNo :: j != k ==> QueueAt(j) == old(QueueAt(j))
      ensures Holding(dropped) == old(Holding(dropped)).Enqueue(k, customer)
    {
      if k == 1 {
        counter1Queue := counter1Queue + [customer];
      } else if k == 2 {
        counter2Queue := counter2Queue + [customer];
      } else {
        counter3Queue := counter3Queue + [customer];
      }
    }

    /**
     * The sufficient-payment branch: the customer is marked paid and pushed
     * on the stack.
     */
    method Pay(k: CounterNo, customer: CustomerInformation, ghost dropped: seq<CustomerInformation>)
      requires Belongs(customer, k) && Valid() && NonePaid(dropped)
      requires NoDup(Holding(dropped).All()) && customer !in Holding(dropped).All()
      modifies this`completeStack, customer`paid
      ensures completeStack == old(completeStack) + [customer] && customer.paid
      ensures Valid() && NoDup(Holding(dropped).All()) && NonePaid(dropped)
    {
      ghost var d := Holding(dropped);
      HeldSomewhere(d, customer);
      PushKeepsNoDup(d, customer);
      customer.MarkAsPaid();
      completeStack := completeStack + [customer];
      assert Holding(dropped) == d.(stack := d.stack + [customer]);
      ForgetDropped(Holding(dropped));
    }

    /** The short-payment and cancel branches: the customer goes back to the tail of its queue. */
    method Requeue(k: CounterNo, customer: CustomerInformation, ghost dropped: seq<CustomerInformation>)
      requires Belongs(customer, k) && Valid() && NonePaid(dropped)
      requires NoDup(Holding(dropped).All()) && customer !in Holding(dropped).All()
      modifies this`counter1Queue, this`counter2Queue, this`counter3Queue
      ensures QueueAt(k) == old(QueueAt(k)) + [customer]
      ensures forall j: CounterNo :: j != k ==> QueueAt(j) == old(QueueAt(j))
      ensures Valid() && NoDup(Holding(dropped).All()) && NonePaid(dropped)
    {
      ghost var d := Holding(dropped);
      EnqueueKeepsNoDup(d, k, customer);
      Offer(k, customer, dropped);
      WaitingAppend(old(QueueAt(k)), k, customer);
      ForgetDropped(Holding(dropped));
    }

    /**
     * The body of the inner loop once the polled customer is known to be
     * unpaid: ask for the payment and act on the answer `r`. The new lane is
     * `Step` of the lane before the poll, and the customer ends up paid
     * exactly when `Serve` says so.
     */
    method Settle(k: CounterNo, customer: CustomerInformation, r: Response,
                  ghost dropped: seq<CustomerInformation>, ghost count: nat)
      returns (ghost dropped': seq<CustomerInformation>)
      requires Belongs(customer, k) && Valid() && NonePaid(dropped)
      requires NoDup(Holding(dropped).All()) && customer !in Holding(dropped).All()
      modifies this`counter1Queue, this`counter2Queue, this`counter3Queue, this`completeStack, customer`paid
      ensures LaneOf(Holding(dropped'), k, count + 1)
              == Step(Lane([customer] + old(QueueAt(k)), old(completeStack), dropped, count), r)
      ensures forall j: CounterNo :: j != k ==> QueueAt(j) == old(QueueAt(j))
      ensures QueueAt(k) == old(QueueAt(k)) || QueueAt(k) == old(QueueAt(k)) + [customer]
      ensures customer.paid <==> Serve(customer, r) == Paid
      ensures Valid() && NoDup(Holding(dropped').All()) && NonePaid(dropped')
    {
      var totalPayment := Wrap(customer.ticketsPurchased * TICKET_PRICE);
      dropped' := dropped;
      match r
      case Cancel =>
        Requeue(k, customer, dropped);
      case Invalid =>
        DropKeepsNoDup(Holding(dropped), customer);
        dropped' := dropped + [customer];
      case Amount(paidAmount) =>
        if paidAmount < totalPayment {
          Requeue(k, customer, dropped);
        } else {
          Pay(k, customer, dropped);
        }
    }

    /**
     * One iteration of the inner loop: poll counter `k`'s queue and, the
     * customer being unpaid, settle it by the next answer.
     */
    method ServeNext(k: CounterNo, answers: Answers, count: nat, ghost dropped: seq<CustomerInformation>,
                     ghost pool: set<CustomerInformation>)
      returns (count': nat, ghost dropped': seq<CustomerInformation>)
      requires QueueAt(k) != []
      requires Valid() && NoDup(Holding(dropped).All()) && NonePaid(dropped)
      requires Members(Queued()) <= pool
      modifies this`counter1Queue, this`counter2Queue, this`counter3Queue, this`completeStack, {QueueAt(k)[0]}`paid
      ensures LaneOf(Holding(dropped'), k, count') == Step(old(LaneOf(Holding(dropped), k, count)), answers(count))
      ensures forall j: CounterNo :: j != k ==> QueueAt(j) == old(QueueAt(j))
      ensures Valid() && NoDup(Holding(dropped').All()) && NonePaid(dropped')
      ensures Members(Queued()) <= pool
    {
      ghost var held, q := Holding(dropped), QueueAt(k);
      HoldingQueues(dropped);
      assert Waiting(q, k);
      var customer := Poll(k, dropped);
      WaitingTail(q, k);
      PollKeepsNoDup(held, k);
      ForgetDropped(Holding(dropped));
      assert [customer] + QueueAt(k) == q;
      StaysWithin(held, Holding(dropped), k, customer, pool);
      count', dropped' := count, dropped;
      if !customer.paid {
        dropped' := Settle(k, customer, answers(count), dropped, count);
        HoldingQueues(dropped');
        StaysWithin(held, Holding(dropped'), k, customer, pool);
        count' := count + 1;
      }
    }

    /**
     * The inner `for` loop of `processPayments` over counter `k`, `count`
     * answers having been used: the desk afterwards is the old one with
     * counter `k`'s lane replaced by `Pass` of it. Only customers of `pool`,
     * which holds every queued customer, change.
     */
    method PaymentPass(k: CounterNo, count: nat, answers: Answers, ghost dropped: seq<CustomerInformation>,
                       ghost pool: set<CustomerInformation>)
      returns (count': nat, ghost dropped': seq<CustomerInformation>)
      requires Valid() && NoDup(Holding(dropped).All()) && NonePaid(dropped)
      requires Members(Queued()) <= pool
      modifies this`counter1Queue, this`counter2Queue, this`counter3Queue, this`completeStack, pool`paid
      ensures var l := Pass(LaneOf(old(Holding(dropped)), k, count), count + PASS_SIZE, answers);
        Holding(dropped') == Merge(old(Holding(dropped)), k, l) && count' == l.count
      ensures Valid() && NoDup(Holding(dropped').All()) && NonePaid(dropped')
      ensures Members(Queued()) <= pool
    {
      ghost var start := LaneOf(Holding(dropped), k, count);
      HoldingQueues(dropped);
      ghost var limit := count + PASS_SIZE;
      count', dropped' := count, dropped;
      var i := 0;
      while i < PASS_SIZE && QueueAt(k) != []
        invariant 0 <= i <= PASS_SIZE && count' == count + i
        invariant Pass(start, limit, answers) == Pass(LaneOf(Holding(dropped'), k, count'), limit, answers)
        invariant forall j: CounterNo :: j != k ==> QueueAt(j) == old(QueueAt(j))
        invariant Valid() && NoDup(Holding(dropped').All()) && NonePaid(dropped')
        invariant Members(Queued()) <= pool
      {
        assert QueueAt(k)[0] in Members(Queued());
        count', dropped' := ServeNext(k, answers, count', dropped', pool);
        i := i + 1;
      }
      HoldingQueues(dropped');
      MergeOfOthers(old(Holding(dropped)), Holding(dropped'), k, count');
    }

    /**
     * `processPayments`, the i-th payment dialog answered by `answers(i)`.
     * The method follows `Cycle`, and is modelled for the answer scripts under
     * which the `while` loop ends within `passes` passes. It returns, as a
     * ghost, the customers dropped on an invalid amount.
     */
    method ProcessPayments(answers: Answers, ghost passes: nat) returns (ghost dropped: seq<CustomerInformation>)
      requires Valid()
      requires Cycle(Holding([]), currentCounter, 0, 0, answers, passes).Some?
      modifies this`counter1Queue, this`counter2Queue, this`counter3Queue, this`completeStack, this`currentCounter
      modifies Members(Queued())`paid
      ensures var e := old(Cycle(Holding([]), currentCounter, 0, 0, answers, passes)).value;
        Holding(dropped) == e.desk && currentCounter == e.counter
      ensures Valid()
      ensures NonePaid(dropped)
    {
      ghost var ending, pool := Cycle(Holding([]), currentCounter, 0, 0, answers, passes), Members(Queued());
      ghost var fuel: nat, done: nat := passes, 0;
      dropped := [];
      var counter := currentCounter;
      var count: nat := 0;
      while count < PAYMENT_LIMIT
        invariant Cycle(Holding(dropped), counter, count, done, answers, fuel) == ending
        invariant Valid() && NoDup(Holding(dropped).All()) && NonePaid(dropped)
        invariant Members(Queued()) <= pool
        decreases fuel
      {
        ghost var before, counter0, count0, done0, fuel0 := Holding(dropped), counter, count, done, fuel;
        count, dropped := PaymentPass(counter, count, answers, dropped, pool);
        counter := Next(counter);
        fuel, done := fuel - 1, done + 1;
        CycleAdvance(before, counter0, count0, done0, fuel0, answers, Holding(dropped), counter, count, done, fuel);
      }
      currentCounter := counter;
    }

    /**
     * `showReceipt`, without the window: the receipt of counter
     * `receiptCounter` lists, and removes from its queue, the first
     * `min(5, size)` customers; the cursor moves on only when that queue
     * was not empty.
     */
    method ShowReceipt() returns (counterToShow: CounterNo, receipt: seq<ReceiptLine>)
      modifies this`counter1Queue, this`counter2Queue, this`counter3Queue, this`receiptCounter
      ensures counterToShow == old(receiptCounter)
      ensures var q := old(QueueAt(counterToShow)); var n := BatchSize(|q|);
        receipt == ReceiptLines(q[..n]) && QueueAt(counterToShow) == q[n..]
      ensures forall j: CounterNo :: j != counterToShow ==> QueueAt(j) == old(QueueAt(j))
      ensures receiptCounter == if old(QueueAt(receiptCounter)) != [] then Next(old(receiptCounter)) else old(receiptCounter)
      ensures old(Valid()) ==> Valid()
    {
      ghost var valid := Valid();
      counterToShow := receiptCounter;
      var currentQueueSize := |QueueAt(counterToShow)|;
      receipt := [];
      if currentQueueSize > 0 {
        ghost var q := QueueAt(counterToShow);
        var n := if CUSTOMERS_TO_SHOW < currentQueueSize then CUSTOMERS_TO_SHOW else currentQueueSize;
        for i := 0 to n
          invariant receipt == ReceiptLines(q[..i]) && QueueAt(counterToShow) == q[i..]
          invariant forall j: CounterNo :: j != counterToShow ==> QueueAt(j) == old(QueueAt(j))
          invariant receiptCounter == old(receiptCounter)
          invariant valid ==> Valid()
        {
          ReceiptLinesSnoc(q, i);
          var customer := Poll(counterToShow, []);
          receipt := receipt + [ReceiptLineOf(customer)];
        }
        receiptCounter := Next(receiptCounter);
      }
    }
  }

  // ---------------------------------------------------------------- helper lemmas

  /**
   * A desk `e` whose queues hold what those of `d` did, but for the
   * customer `c` taken from counter `k`'s queue, stays within `pool`.
   */
  lemma StaysWithin(d: Desk, e: Desk, k: CounterNo, c: CustomerInformation, pool: set<CustomerInformation>)
    requires Members(d.Queued()) <= pool && d.Queue(k) != [] && c == d.Queue(k)[0]
    requires e.Queue(k) == d.Queue(k)[1..] || e.Queue(k) == d.Queue(k)[1..] + [c]
    requires forall j: CounterNo :: j != k ==> e.Queue(j) == d.Queue(j)
    ensures Members(e.Queued()) <= pool
  {
    forall x | x in Members(e.Queued()) ensures x in pool {
      assert x in e.Queue(1) || x in e.Queue(2) || x in e.Queue(3);
      assert x in d.Queue(1) || x in d.Queue(2) || x in d.Queue(3);
    }
  }

  lemma WaitingTail(q: seq<CustomerInformation>, k: CounterNo)
    requires Waiting(q, k) && q != []
    ensures Belongs(q[0], k) && Waiting(q[1..], k)
  {
    assert q[0] in q;
    assert forall c :: c in q[1..] ==> c in q;
  }

  lemma WaitingAppend(q: seq<CustomerInformation>, k: CounterNo, c: CustomerInformation)
    requires Waiting(q, k) && Belongs(c, k)
    ensures Waiting(q + [c], k)
  {
  }
}
