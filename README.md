# Theme park ticketing: a verified model of its bookkeeping

The Theme Park Ticketing System is a Swing desktop program
(`ThemeParkTicketingSystem.java`). It registers customers and assigns each one
to one of three counters: counters 1 and 2 take small orders of at most five
tickets, alternately, and counter 3 takes larger orders. It also collects
payments and prints receipts. This project models that bookkeeping in Dafny,
without the window:

- **`CustomerInformation`** is a class. Its id, name and ticket count are
  constants. Its counter and paid flag are fields updated in place. Ids come
  from a generator object that plays the role of the static
  `nextCustomerId`; the generator wraps around as a Java `int` does.
- **`ThemeParkTicketingSystem`** is a class with the customer list, the three
  counter queues, the stack of paid customers, the two per-counter tallies,
  and the two cursors `currentCounter` and `receiptCounter`. Its methods
  follow `assignCounter`, `addCustomerToList`, the "Add Customer" action,
  `processPayments` and `showReceipt`.
- The payment dialog is replaced by a script of answers: `answers(i)` answers
  the i-th dialog of a run with `Cancel`, `Invalid` (text that
  `Integer.parseInt` rejects) or `Amount(n)`.
- Module **TicketingRules** states the same rules on values. `Assign` and
  `Assignments` cover counter assignment. `Step`, `Pass` and `Cycle` cover
  one poll, one inner `for` loop and the whole `while` loop of
  `processPayments`. `ReceiptLines` and `BatchSize` cover the receipt. The
  class methods are proved to follow these functions, and the lemmas state
  what the rules guarantee.
- Java `int` arithmetic is modelled exactly in module **JavaInt**. The price
  `tickets * 15` and the id counter `nextCustomerId++` both wrap at 32 bits.

The class keeps an object invariant, `Valid`:

- every queued customer is unpaid and sits in the queue its counter field
  names;
- every stacked customer has paid;
- no customer is held twice in the queues and the stack.

The constructor establishes it, and every operation keeps it.
`AddCustomerToList` keeps it for an unpaid customer the system does not hold
yet, which is what both of its call sites pass: a newly created customer.

Behaviours of the code that the model follows and the proofs bring out:

- **An invalid amount drops the customer.** A cancel or a short payment puts
  the customer back at the tail of its queue
  (`ThemeParkTicketingSystem.java:278`, `:288`). An amount that does not
  parse does not: the customer is then in no queue and not on the stack
  (`ThemeParkTicketingSystem.java:284-286`). `InvalidAnswerLosesCustomer`
  states the loss, and `CycleConservesCustomers` counts the dropped customers
  separately.
- **The payment quota can be exceeded.** The quota of five answers is checked
  only between passes over a queue, so one run can use up to nine answers
  (`CountCanOvershoot`).
- **A run can loop forever.** This happens, for example, when every queue is
  empty below the quota (`EmptyQueuesNeverReachQuota`), or when the last
  queued customer pays before the quota is reached
  (`LonePayerNeverReachesQuota`). Cancels and short payments keep customers
  queued, so a single customer who keeps cancelling still ends the run. With
  at least as many customers queued as answers missing, the run always ends
  (`QuotaReached`).
- **Payments move the assignment cursor.** `processPayments` starts from and
  stores `currentCounter`, the same cursor counter assignment uses, so a
  payment run changes where the next small order goes
  (`PaymentsSteerNextRegistration`).
- **Large orders overflow the price.** Orders of 143165577 to 286331153
  tickets get a negative price; from 286331154 tickets the price wraps round
  to small positive values (`PriceOverflows`).

## Model

| member | source | states |
|---|---|---|
| JavaInt.Wrap | ThemeParkTicketingSystem.java:214 | The 32-bit result of an int operation: in range, congruent to the exact value modulo 2^32, and equal to it when the exact value fits |
| JavaInt.Increment | ThemeParkTicketingSystem.java:22 | `x++` on an int adds one, except that the largest int becomes the smallest |
| Customers.CustomerIdGenerator.constructor | ThemeParkTicketingSystem.java:14 | The id counter starts at 1 |
| Customers.CustomerInformation.constructor | ThemeParkTicketingSystem.java:21-27 | A new customer takes the current id and the counter advances by one int increment; name and tickets are stored, the counter is -1 and the customer is unpaid |
| Customers.CustomerInformation.SetCounter | ThemeParkTicketingSystem.java:45-47 | The counter field takes the given value and nothing else changes |
| Customers.CustomerInformation.MarkAsPaid | ThemeParkTicketingSystem.java:53-55 | The customer is paid afterwards and nothing else changes |
| Customers.CustomerInformation.MarkAsUnpaid | ThemeParkTicketingSystem.java:57-59 | The customer is unpaid afterwards and nothing else changes |
| Customers.IssuedIds | ThemeParkTicketingSystem.java:22 | The ids handed out by n constructions in a row from one generator: one id per construction, the first being the generator's current value |
| Customers.IssuedIdsConsecutive | ThemeParkTicketingSystem.java:21-22 | Until the largest int is reached, n constructions in a row get the ids next, next+1, …, next+n-1, so distinct and increasing |
| Customers.IssuedIdsWrap | ThemeParkTicketingSystem.java:22 | The construction after the one that got the largest int gets the smallest int, so ids are not increasing forever |
| TicketingRules.Next | ThemeParkTicketingSystem.java:294 | `(counter % 3) + 1` moves to a different counter: 1 to 2, 2 to 3, 3 to 1 |
| TicketingRules.Rotate | ThemeParkTicketingSystem.java:294 | The counter reached after n rotations (a definition; `RotateClosedForm` gives its closed form) |
| TicketingRules.RotateClosedForm | ThemeParkTicketingSystem.java:294 | n rotations `(counter % 3) + 1` from k land on `(k - 1 + n) % 3 + 1`, which cycles 1, 2, 3 |
| TicketingRules.CalculateTotalPrice | ThemeParkTicketingSystem.java:212-215 | The price is 15 per ticket modulo 2^32, and exactly 15 per ticket whenever that fits in an int |
| TicketingRules.PriceOverflows | ThemeParkTicketingSystem.java:214 | 143165576 tickets give a positive price and 143165577 a negative one; 286331153 still give a negative price and 286331154 wrap round to 14 |
| TicketingRules.Assign | ThemeParkTicketingSystem.java:235-246 | Counter 3 exactly for orders over five tickets, leaving the cursor alone; otherwise counter 1 exactly when the cursor was 1, and the cursor then points at the other general counter |
| TicketingRules.Assignments | ThemeParkTicketingSystem.java:235-246 | The counters that successive `assignCounter` calls hand out, each starting from the cursor the previous call left (a definition; `AssignmentsAlternate` states what it gives) |
| TicketingRules.AssignmentsAlternate | ThemeParkTicketingSystem.java:235-246 | Over a sequence of orders, large ones get counter 3 and leave the cursor alone; small ones get 1 or 2 according to the parity of the number of earlier small orders and the starting cursor (3 acts like 2) |
| TicketingRules.AssignmentsLength | ThemeParkTicketingSystem.java:235-246 | Every order gets exactly one counter |
| TicketingRules.AlternationFromStart | ThemeParkTicketingSystem.java:235-246 | From the initial cursor, the j-th small order goes to counter 1 when j is even and to counter 2 when j is odd |
| TicketingRules.RegistrationExample | ThemeParkTicketingSystem.java:235-246 | Orders of 3, 8 and 2 tickets from the initial cursor get counters 1, 3 and 2 |
| TicketingRules.Serve | ThemeParkTicketingSystem.java:272-289 | A customer pays exactly when the answer is an amount of at least the price; it is dropped exactly when the answer does not parse; otherwise it is requeued |
| TicketingRules.Step | ThemeParkTicketingSystem.java:266-290 | One poll of an unpaid customer uses exactly one answer and keeps the number of customers in queue, stack and dropped list |
| TicketingRules.Pass | ThemeParkTicketingSystem.java:265-292 | The inner loop never gives back an answer, and it stops only when its answer limit is used up or the queue is empty |
| TicketingRules.Cycle | ThemeParkTicketingSystem.java:256-296 | When the `while` loop exits within the pass budget, at least five answers were used and at most the budget of passes made |
| TicketingRules.StepMovesHead | ThemeParkTicketingSystem.java:266-290 | One poll uses one answer and moves the head of the queue: onto the stack when it pays, back to the tail when it cancels or pays too little, out of every container when the amount is invalid |
| TicketingRules.StepConserves | ThemeParkTicketingSystem.java:266-290 | One poll neither creates nor loses a customer among the queue, the stack and the dropped customers |
| TicketingRules.InvalidAnswerLosesCustomer | ThemeParkTicketingSystem.java:284-286 | After an invalid amount, a customer queued once is neither in the queue nor on the stack |
| TicketingRules.PassFacts | ThemeParkTicketingSystem.java:265-292 | The inner loop uses at most its five answers, uses at least one when the queue is not empty, only appends to the stack and the dropped list, and removes at most one customer from the queue per answer |
| TicketingRules.PassConserves | ThemeParkTicketingSystem.java:265-292 | The inner loop neither creates nor loses a customer |
| TicketingRules.AllPayPass | ThemeParkTicketingSystem.java:265-283 | When every answer is the largest int amount, which pays for any order, the inner loop moves the front customers of the queue onto the stack in queue order |
| TicketingRules.CancelsCycleHead | ThemeParkTicketingSystem.java:287-289 | Cancels make a lone customer go round its queue: each poll uses an answer and nothing else changes |
| TicketingRules.CycleCounts | ThemeParkTicketingSystem.java:256-295 | The payment loop exits with between 5 and 9 answers used, and makes at least one pass when it starts below the quota |
| TicketingRules.CycleRotates | ThemeParkTicketingSystem.java:294 | The loop exits at the starting counter rotated once per pass |
| TicketingRules.CycleGrows | ThemeParkTicketingSystem.java:256-295 | Over a run the stack and the dropped list only grow by appending |
| TicketingRules.CycleConserves | ThemeParkTicketingSystem.java:256-295 | A run neither creates nor loses a customer among queues, stack and dropped customers |
| TicketingRules.CycleConservesCustomers | ThemeParkTicketingSystem.java:256-295 | The customers queued before a run are the customers queued after it, plus those newly pushed on the stack, plus those dropped on an invalid amount |
| TicketingRules.PaymentCycleSummary | ThemeParkTicketingSystem.java:250-297 | For a run started by `processPayments`: 5 to 9 answers used, at least one pass, the cursor rotated once per pass, the old stack kept at the bottom, and every customer queued at the start still queued, newly stacked or dropped |
| TicketingRules.CycleFuelIrrelevant | ThemeParkTicketingSystem.java:256 | The result of a run that ends does not depend on the pass budget used to describe it |
| TicketingRules.QuotaReached | ThemeParkTicketingSystem.java:256-295 | With at least as many customers queued as answers still missing, the loop ends whatever the answers |
| TicketingRules.EmptyQueuesNeverReachQuota | ThemeParkTicketingSystem.java:256-265 | With every queue empty below the quota, the loop never ends |
| TicketingRules.LonePayerNeverReachesQuota | ThemeParkTicketingSystem.java:256-295 | A single queued customer who pays the largest int amount at the first dialog leaves the loop running forever |
| TicketingRules.FullQueueCycle | ThemeParkTicketingSystem.java:256-296 | Five or more customers at the current counter who all pay the largest int amount end the run in one pass: exactly the first five go onto the stack and the cursor moves to the next counter |
| TicketingRules.PaymentsSteerNextRegistration | ThemeParkTicketingSystem.java:294-296 | A run at counter 2 in which five customers pay the largest int amount leaves the shared cursor at 3, so the next small order goes to counter 2 |
| TicketingRules.CountCanOvershoot | ThemeParkTicketingSystem.java:256-292 | Four payments of the largest int amount at counter 1, then five cancels at counter 2, end a run with nine answers used, beyond the limit of five |
| TicketingRules.PollKeepsNoDup | ThemeParkTicketingSystem.java:266 | Polling a queue keeps all held customers distinct, and the polled customer is held nowhere else |
| TicketingRules.EnqueueKeepsNoDup | ThemeParkTicketingSystem.java:278 | Adding a customer not yet held to a queue keeps all held customers distinct |
| TicketingRules.PushKeepsNoDup | ThemeParkTicketingSystem.java:282 | Pushing a customer not yet held on the stack keeps all held customers distinct |
| TicketingRules.DropKeepsNoDup | ThemeParkTicketingSystem.java:284-286 | Dropping a customer not yet held keeps all customers distinct, counting the dropped ones |
| TicketingRules.ReceiptLineOf | ThemeParkTicketingSystem.java:334-348 | One receipt entry: the customer's id, name, tickets and `calculateTotalPrice` of the tickets (a definition; `ReceiptShowsPrice` states what it shows) |
| TicketingRules.ReceiptLines | ThemeParkTicketingSystem.java:331-351 | The receipt of a batch: one entry per customer, in queue order (a definition; `ReceiptShowsPrice` states what it shows) |
| TicketingRules.BatchSize | ThemeParkTicketingSystem.java:331 | `Math.min(5, size)`: at most five and at most the queue size, and equal to one of them |
| TicketingRules.ReceiptShowsPrice | ThemeParkTicketingSystem.java:334-346 | Each receipt entry shows the customer's id, name and tickets, and 15 per ticket when the price fits in an int |
| TicketingSystem.Route | ThemeParkTicketingSystem.java:219-227 | Counter fields 1 and 2 pick their own queue; any other value picks queue 3 |
| TicketingSystem.ThemeParkTicketingSystem.constructor | ThemeParkTicketingSystem.java:78-83 | Empty list, queues and stack, both tallies 0, both cursors at 1, and the object invariant holds |
| TicketingSystem.ThemeParkTicketingSystem.AssignCounter | ThemeParkTicketingSystem.java:235-247 | Large orders get counter 3 and leave the cursor alone; small orders get 1 and set the cursor to 2 when it was 1, else get 2 and set it to 1 |
| TicketingSystem.ThemeParkTicketingSystem.AddCustomerToList | ThemeParkTicketingSystem.java:217-228 | The customer is appended to the list and to the queue its counter field picks; only that counter's tally (1 or 2) goes up by an int increment; other queues are unchanged; the invariant is kept for a fresh unpaid customer |
| TicketingSystem.ThemeParkTicketingSystem.Register | ThemeParkTicketingSystem.java:104-112 | "Add Customer": the new customer gets the next id, the counter `assignCounter` chooses, and the tail of that counter's queue; the cursor moves as `assignCounter` says; the tally of counter 1 or 2 goes up by an int increment when that counter was chosen; the stack and the other queues are unchanged; the invariant is kept |
| TicketingSystem.ThemeParkTicketingSystem.Poll | ThemeParkTicketingSystem.java:266 | Returns the head of counter k's queue and removes it; the other queues are unchanged; the invariant is kept |
| TicketingSystem.ThemeParkTicketingSystem.Offer | ThemeParkTicketingSystem.java:278 | Appends a customer to counter k's queue; the other queues are unchanged |
| TicketingSystem.ThemeParkTicketingSystem.Pay | ThemeParkTicketingSystem.java:280-282 | The customer is marked paid and pushed on top of the stack; the invariant is kept |
| TicketingSystem.ThemeParkTicketingSystem.Requeue | ThemeParkTicketingSystem.java:276-289 | A short payment or a cancel puts the customer back at the tail of its queue; the invariant is kept |
| TicketingSystem.ThemeParkTicketingSystem.Settle | ThemeParkTicketingSystem.java:268-290 | Handling one answer for an unpaid polled customer changes the lane exactly as `Step` says; the customer is paid exactly when `Serve` says so; the invariant is kept |
| TicketingSystem.ThemeParkTicketingSystem.ServeNext | ThemeParkTicketingSystem.java:265-291 | One inner-loop iteration changes the lane exactly as `Step` with the next answer; the other queues are unchanged; the invariant is kept |
| TicketingSystem.ThemeParkTicketingSystem.PaymentPass | ThemeParkTicketingSystem.java:265-292 | The inner loop over counter k's queue leaves the queues and stack as `Pass` says, with the count of answers used, and keeps the invariant |
| TicketingSystem.ThemeParkTicketingSystem.ProcessPayments | ThemeParkTicketingSystem.java:250-297 | A payment run leaves the queues, the stack, the dropped customers and the cursor as `Cycle` says (see `PaymentCycleSummary` for what that implies); the invariant is kept and the dropped customers stay unpaid |
| TicketingSystem.ThemeParkTicketingSystem.ShowReceipt | ThemeParkTicketingSystem.java:299-364 | The receipt of counter `receiptCounter` lists the first min(5, size) customers of its queue in order and removes exactly them; the other queues are unchanged; the cursor moves to the next counter only when the queue was not empty; the invariant is kept |

## Left out

- The Swing window: the frame, panels, table and buttons of the constructor
  (`ThemeParkTicketingSystem.java:85-184`), `addCustomerToTable`, the receipt
  frame and its labels, and `main`. These are display only; `addCustomerToTable`
  changes no state of the model.
- Reading `customer.txt` in `loadCustomersFromTextFile`
  (`ThemeParkTicketingSystem.java:187-210`), because it is file input.
  - A line with exactly two comma-separated fields registers a customer as
    `Register` does, with the name trimmed.
  - Other lines are skipped.
  - A ticket field that `parseInt` rejects throws a
    `NumberFormatException`. The `catch (IOException e)` does not catch it,
    so loading stops there and the exception leaves the constructor.
- `Integer.parseInt` on the ticket field of the "Add Customer" action, and its
  error dialog. `Register` takes the parsed `int`; text that does not parse
  registers nobody.
- The payment and message dialogs. They are replaced by the scripted
  `answers`, with `Invalid` standing for text that `parseInt` rejects.
- The information dialog `showReceipt` shows for an empty queue. It is
  display only; the model changes nothing in that case.
- TicketingSystem.ThemeParkTicketingSystem.ProcessPayments: requires an
  answer script under which the `while` loop ends within `passes` passes.
  Runs that loop forever have no final state to describe.
  `EmptyQueuesNeverReachQuota` and `LonePayerNeverReachesQuota` show such
  runs exist; `QuotaReached` shows which queues always end.
- TicketingSystem.ThemeParkTicketingSystem.ProcessPayments,
  TicketingSystem.ThemeParkTicketingSystem.Register: these require the object
  invariant `Valid`. The constructor establishes it and every operation keeps
  it, `AddCustomerToList` for an unpaid customer the system does not hold yet,
  as both of its call sites pass. So it holds in every reachable state of the
  program.
- TicketingRules.Step: does not describe the branch for a polled customer who
  has already paid, which the code removes from the queue without using an
  answer. Under `Valid` no queued customer has paid. `ServeNext` still models
  that branch as written.
- The local alias `currentQueue`, through which the code's loops change the
  selected queue, is not modelled as an alias. It becomes a counter number
  that selects one of the three queue fields. The inner loop body is split
  into `ServeNext`, `Settle`, `Pay` and `Requeue` along the branches of
  `ThemeParkTicketingSystem.java:268-289`.
- Concurrency and the Swing event thread: the model is single-threaded, as
  every action of the program runs on that thread.
- The `customerList`, `counter1Count` and `counter2Count` fields are written
  but never read by the program. The model keeps them and states their
  updates, but states no property about their later use.
