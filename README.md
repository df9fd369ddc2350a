# Bank simulation: teller assignment, lines and shutdown, in Dafny

This project models the sequential rules inside the critical sections of two
thread-and-semaphore bank simulations, `banker.c` and `banker.cpp`. Both have
3 tellers and 5 customers. The door admits 2 customers, the safe 2 tellers
and the manager 1 teller. Each block guarded by the program's mutex becomes
one atomic method of a `Bank` class. Apart from the door, safe and manager
semaphores, which only block, threads interact only through these blocks, so
running a thread's blocks back to back gives one serial schedule of the
program.

- `banker_c.dfy`, module `BankerC`, models `banker.c`. A customer claims the
  lowest-numbered free teller in the `int` table `tellerAvailable`, where a
  non-zero entry means free. It performs its transaction: a deposit needs
  nothing, while a withdrawal takes and gives back the manager, then the safe.
  It gives the teller back, leaves through the door and decrements
  `customersRemaining`. A customer that finds no free teller leaves at once.
  Teller threads only test whether `customersRemaining <= 0`.
- `banker_cpp.dfy`, module `BankerCpp`, models `banker.cpp`. A customer claims
  the lowest free teller in the `bool` table, or joins the shortest of the
  three `tellerLines` queues when none is free. Ties go to the lower index.
  A customer that claimed a teller then pushes itself onto that teller's
  line. In each pass of its loop, a teller pops the front of its own line,
  serves it and marks itself free.

In `banker.c` the customer thread does all the transaction work and the
teller threads serve nobody. In `banker.cpp` a customer leaves the bank right
after being pushed onto a line, without waiting to be served, and teller
threads never end: `main` detaches them.

In `banker.c` every method of `Bank` appends what it does to a ghost `trace`
of events, so `CustomerThread` is checked against the order in which its
blocks actually run.

The transaction kind, which the program draws with `rand() % 2`, is an input
parameter. In `banker.c` a non-zero draw means deposit. In `banker.cpp` the
kind and amount are only logged, so that model does not carry them.

`NoTellerIffAllBusy` proves that a claim fails only when every teller is
busy. In `banker.c` a teller is claimed and given back between the customer's
door acquire and door release. The door admits 2 customers and there are 3
tellers, so the failure branch of `banker.c` cannot be reached when the
semaphore works as specified. The door semaphore is not modelled, so this
last step is an argument, not a proof.

## Model

| member | source | states |
|---|---|---|
| `BankerC.FirstAvailableFrom` | banker.c:48-56 | The scan from index `from` returns the lowest index at or after `from` with a non-zero flag. It returns -1 exactly when every flag from `from` on is 0. |
| `BankerC.FirstAvailable` | banker.c:46-56 | The selected teller is the lowest index with a non-zero flag. The result is -1 exactly when every flag is 0. |
| `BankerC.Claim` | banker.c:46-57 | The claim returns the lowest free teller or -1. Only that entry changes, from non-zero to 0, and every other entry keeps its value. On -1 the table is unchanged. |
| `BankerC.NoTellerIffAllBusy` | banker.c:46-59 | The busy count never exceeds the number of tellers. The claim returns -1 exactly when every teller is busy. |
| `BankerC.ClaimReleaseRoundTrip` | banker.c:46-97 | A claim keeps the table 0/1-valued. Releasing the claimed teller restores the table exactly. |
| `BankerC.TransactionSteps` | banker.c:65-91 | A transaction starts with the customer's request for its kind and ends with the completion of that kind. |
| `BankerC.TransactionStepOrder` | banker.c:67-91 | A deposit has no manager or safe step. A withdrawal's gate steps are, in order: manager acquire, manager release, safe acquire, safe release. At every point at most one of the two gates is held, and none is held at completion. |
| `BankerC.CustomerEvents` | banker.c:41-107 | One customer's events start with the door acquire and the teller scan. There are 4 of them when the scan found no teller, and 5 plus the transaction's steps otherwise. |
| `BankerC.TellerEvents` | banker.c:45-98 | The part of a customer's events between door acquire and door release starts with the teller scan. |
| `BankerC.CustomerEventsSplit` | banker.c:41-107 | A customer's events are the door acquire, then the teller part, then the door release and the decrement. |
| `BankerC.CustomerEventsOrder` | banker.c:41-107 | A customer first takes the door. Its last two events are the door release and then the decrement, each exactly once. With -1 from the scan there is no transaction step and no teller release. With a teller, its steps are exactly its kind's transaction steps, followed by exactly one teller release. |
| `BankerC.IdsBelow` | banker.c:158-163 | The ids `main` gives its threads are exactly 0..n-1, n of them. |
| `BankerC.FullSubset` | banker.c:20 | A set of customer ids has at most `NUM_CUSTOMERS` members, and has exactly that many only when it holds every id. |
| `BankerC.Bank.constructor` | banker.c:19-20 | Every teller starts free (1) and `customersRemaining` starts at `NUM_CUSTOMERS`. |
| `BankerC.Bank.AcquireDoor` | banker.c:42 | The door acquire is recorded in the trace. Nothing else changes. |
| `BankerC.Bank.ClaimTeller` | banker.c:46-57 | The for/break scan returns, and writes into the array, exactly what `Claim` computes from the old table. The scan is recorded in the trace. |
| `BankerC.Bank.Transact` | banker.c:65-91 | The transaction's steps for the given kind are recorded in the trace, in order. The teller table and the counter do not change. |
| `BankerC.Bank.ReleaseTeller` | banker.c:95-97 | The given teller's flag becomes 1. Every other entry is unchanged. The release is recorded in the trace. |
| `BankerC.Bank.ReleaseDoor` | banker.c:101-102 | The door release is recorded in the trace. Nothing else changes. |
| `BankerC.Bank.CustomerDone` | banker.c:104-107 | The counter drops by exactly one. The customer is recorded as finished, which the precondition allows only once per customer. The decrement is recorded in the trace. |
| `BankerC.Bank.TellerShouldLeave` | banker.c:120-127 | The teller leaves exactly when `customersRemaining <= 0`, which is exactly when every customer has finished. |
| `BankerC.Bank.VisitTeller` | banker.c:45-98 | The customer gets the lowest free teller. The trace grows by exactly `TellerEvents` for that result: the scan, and with a teller its transaction steps and the teller release. The table is the same afterwards. |
| `BankerC.Bank.CustomerThread` | banker.c:29-110 | The trace grows by exactly `CustomerEvents` for the teller obtained, in the order the blocks run. The teller it gets is the lowest free one. The availability table is the same afterwards. The counter drops by one and the customer is finished. |
| `BankerC.Bank.ServeAll` | banker.c:156-169 | After the 5 customers run one after another, the counter is 0 and every customer has finished. A teller's exit test then says leave, and the table is as it started. |
| `BankerCpp.FirstAvailableFrom` | banker.cpp:55-63 | The scan from `from` returns the lowest `true` index at or after `from`. It returns -1 exactly when all those flags are `false`. |
| `BankerCpp.FirstAvailable` | banker.cpp:53-63 | The selected teller is the lowest free one. The result is -1 exactly when every flag is `false`. |
| `BankerCpp.Claim` | banker.cpp:53-63 | The claim returns the lowest free teller or -1. Only that entry changes, from `true` to `false`. On -1 the table is unchanged. |
| `BankerCpp.ShortestLine` | banker.cpp:66-74 | The chosen line has minimum length among all lines. Every lower-indexed line is strictly longer, so ties go to the lowest index. |
| `BankerCpp.JoinAddsOnce` | banker.cpp:75 | Joining appends the customer to the tail of exactly the chosen line and leaves every other line unchanged. The customer gets exactly one more waiting entry across all lines. |
| `BankerCpp.RunLine` | banker.cpp:103-131 | Running a sequence of pushes and teller passes on one line serves at most one customer per operation. |
| `BankerCpp.LineIsFifo` | banker.cpp:105-111 | For any mix of pushes and teller passes on one line, the served customers followed by those still waiting equal the initial line followed by the pushed customers. So the served customers are a prefix, in push order. A pass on an empty line serves nobody. |
| `BankerCpp.Bank.constructor` | banker.cpp:24-25 | Every teller starts free and every line starts empty. |
| `BankerCpp.Bank.ClaimTeller` | banker.cpp:53-63 | The for/break scan returns, and writes into the array, exactly what `Claim` computes from the old table. |
| `BankerCpp.Bank.JoinShortestLine` | banker.cpp:64-77 | The `shortestLine` loop picks `ShortestLine` of the old lines, and the customer is pushed onto that line. |
| `BankerCpp.Bank.EnterBank` | banker.cpp:52-78 | Within one critical section, either a free teller is claimed and no line changes, or no teller is free and the customer joins the shortest line. |
| `BankerCpp.Bank.PushAssigned` | banker.cpp:90-92 | The customer is appended to the line of the teller it claimed. |
| `BankerCpp.Bank.CustomerThread` | banker.cpp:39-98 | The customer is pushed exactly once, onto exactly one line. That is the claimed teller's line when a teller was free, otherwise the shortest line. Every other line is unchanged, and the multiset of waiting customers gains exactly this customer. The new line is what `RunLine` gives for one push. |
| `BankerCpp.Bank.BeginServe` | banker.cpp:105-111 | On a non-empty line, the front customer is returned and removed and the teller is marked busy. On an empty line nothing changes. |
| `BankerCpp.Bank.FinishServe` | banker.cpp:123-125 | The teller's flag becomes `true`. Every other flag is unchanged. |
| `BankerCpp.Bank.TellerStep` | banker.cpp:103-131 | One pass of the teller loop. On a non-empty line it serves the front customer, drops it from the line and leaves the teller free, whatever its flag was. On an empty line nothing changes. The new line and the customer served are what `RunLine` gives for one pass. |

## Left out

- Threads, their creation, joining and detaching, and the interleaving between critical sections. Each mutex block is atomic, and the serial compositions (`CustomerThread`, `ServeAll`) are one schedule among many.
- The door, safe and manager semaphores. Their counting and blocking are not modelled. `banker.c` records only the order of manager and safe acquire/release steps. The capacities 2/2/1 appear only as constants. `BankerC.Bank.AcquireDoor`, `BankerC.Bank.ReleaseDoor` and `BankerC.Bank.Transact` record only their place in the trace.
- `usleep`, `sleep_for` and the polling around the teller's exit test in `banker.c` and the empty-line branch in `banker.cpp`. These are timing only. The `banker.c` teller loop is modelled by its exit test, and the `banker.cpp` teller loop by one pass (`TellerStep`).
- `rand`/`srand`. The transaction kind is a parameter, and the transaction amount is only logged, so it is dropped.
- Logging to the console and to `logfile.txt`, and the message texts.
- `main`'s setup and teardown, apart from the constants and the serial schedule in `ServeAll`.
