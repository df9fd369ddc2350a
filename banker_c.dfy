/** Model of banker.c: the bank whose customers pick the first free teller,
    do their transaction in place and leave, and whose tellers only watch the
    number of customers still to come.  Each mutex-protected block of the
    program is one atomic method of `Bank`; the thread interleaving is not
    modelled. */
module BankerC {

  const NumTellers: nat := 3
  const NumCustomers: nat := 5
  const DoorCapacity: nat := 2
  const SafeCapacity: nat := 2
  const ManagerCapacity: nat := 1

  /** The two transaction kinds; the program draws one per customer. */
  datatype Kind = Deposit | Withdrawal

  // ---------------------------------------------------------------------
  // The teller availability table (an `int` array: non-zero means free)
  // ---------------------------------------------------------------------

  /** Every entry is 0 (busy) or 1 (free), the only values the program writes. */
  ghost predicate IsFlagTable(flags: seq<int>) {
    forall i :: 0 <= i < |flags| ==> flags[i] == 0 || flags[i] == 1
  }

  /** The lowest index at or after `from` whose flag is set, or -1. */
  function FirstAvailableFrom(flags: seq<int>, from: nat): (r: int)
    requires from <= |flags|
    ensures r == -1 || from <= r < |flags|
    ensures r == -1 <==> forall j :: from <= j < |flags| ==> flags[j] == 0
    ensures r != -1 ==> flags[r] != 0 && forall j :: from <= j < r ==> flags[j] == 0
    decreases |flags| - from
  {
    if from == |flags| then -1
    else if flags[from] != 0 then from
    else FirstAvailableFrom(flags, from + 1)
  }

  /** The teller the scan in `customerThread` selects: the lowest free one, or -1. */
  function FirstAvailable(flags: seq<int>): (r: int)
    ensures r == -1 <==> forall j :: 0 <= j < |flags| ==> flags[j] == 0
    ensures r != -1 ==> 0 <= r < |flags| && flags[r] != 0 && forall j :: 0 <= j < r ==> flags[j] == 0
  {
    FirstAvailableFrom(flags, 0)
  }

  /** The table after the scan and the teller it returns. */
  function Claim(flags: seq<int>): (c: (seq<int>, int))
    ensures |c.0| == |flags|
    ensures c.1 == -1 <==> forall j :: 0 <= j < |flags| ==> flags[j] == 0
    ensures c.1 == -1 ==> c.0 == flags
    ensures c.1 != -1 ==> 0 <= c.1 < |flags| && flags[c.1] != 0 && c.0[c.1] == 0
    ensures c.1 != -1 ==> forall j :: 0 <= j < c.1 ==> flags[j] == 0
    ensures forall j :: 0 <= j < |flags| && j != c.1 ==> c.0[j] == flags[j]
  {
    var i := FirstAvailable(flags);
    if i == -1 then (flags, -1) else (flags[i := 0], i)
  }

  /** The number of busy tellers in the table. */
  function BusyCount(flags: seq<int>): nat {
    if flags == [] then 0
    else (if flags[0] == 0 then 1 else 0) + BusyCount(flags[1..])
  }

  /** The scan comes back empty-handed exactly when every teller is busy. */
  lemma {:induction false} NoTellerIffAllBusy(flags: seq<int>)
    ensures BusyCount(flags) <= |flags|
    ensures FirstAvailable(flags) == -1 <==> BusyCount(flags) == |flags|
  {
    if flags != [] {
      NoTellerIffAllBusy(flags[1..]);
      assert FirstAvailable(flags[1..]) == -1 <==> forall j :: 1 <= j < |flags| ==> flags[j] == 0 by {
        forall j | 1 <= j < |flags| ensures flags[1..][j - 1] == flags[j] { }
      }
    }
  }

  /** The table after a customer hands teller `t` back. */
  function Release(flags: seq<int>, t: int): seq<int>
    requires 0 <= t < |flags|
  {
    flags[t := 1]
  }

  /** A claim keeps the table a 0/1 table, and releasing the claimed teller
      gives back exactly the table the claim started from. */
  lemma ClaimReleaseRoundTrip(flags: seq<int>)
    requires IsFlagTable(flags)
    ensures IsFlagTable(Claim(flags).0)
    ensures Claim(flags).1 != -1 ==> Release(Claim(flags).0, Claim(flags).1) == flags
  {
  }

  // ---------------------------------------------------------------------
  // The order of resource steps of one transaction
  // ---------------------------------------------------------------------

  /** The steps of one transaction as `customerThread` performs them. */
  datatype Step =
    | Request(kind: Kind)     // the customer states the kind
    | AcquireManager
    | ReleaseManager
    | AcquireSafe
    | ReleaseSafe
    | Complete(kind: Kind)    // the teller reports completion

  predicate IsGateStep(s: Step) {
    s.AcquireManager? || s.ReleaseManager? || s.AcquireSafe? || s.ReleaseSafe?
  }

  /** The manager and safe steps of `steps`, in order. */
  function GateSteps(steps: seq<Step>): (g: seq<Step>)
    ensures forall i :: 0 <= i < |g| ==> IsGateStep(g[i])
  {
    if steps == [] then []
    else (if IsGateStep(steps[0]) then [steps[0]] else []) + GateSteps(steps[1..])
  }

  /** The change a step makes to the number of gates the teller holds. */
  function Delta(s: Step): int {
    if s.AcquireManager? || s.AcquireSafe? then 1
    else if s.ReleaseManager? || s.ReleaseSafe? then -1
    else 0
  }

  /** How many of the manager and safe gates are held after the first `n` steps. */
  function HeldAfter(steps: seq<Step>, n: nat): int
    requires n <= |steps|
  {
    if n == 0 then 0 else HeldAfter(steps, n - 1) + Delta(steps[n - 1])
  }

  /** What `customerThread` does between the teller's question and the
      customer leaving the teller. */
  function TransactionSteps(k: Kind): (steps: seq<Step>)
    ensures |steps| >= 2 && steps[0] == Request(k) && steps[|steps| - 1] == Complete(k)
  {
    match k
    case Deposit => [Request(k), Complete(k)]
    case Withdrawal =>
      [Request(k), AcquireManager, ReleaseManager, AcquireSafe, ReleaseSafe, Complete(k)]
  }

  /** A deposit touches neither the manager nor the safe; a withdrawal takes
      and gives back the manager, then takes and gives back the safe.  At no
      point is more than one of the two held, and both are free again when
      the transaction completes. */
  lemma TransactionStepOrder(k: Kind)
    ensures k == Deposit ==> GateSteps(TransactionSteps(k)) == []
    ensures k == Withdrawal ==>
      GateSteps(TransactionSteps(k)) == [AcquireManager, ReleaseManager, AcquireSafe, ReleaseSafe]
    ensures var s := TransactionSteps(k);
      forall n :: 0 <= n <= |s| ==> 0 <= HeldAfter(s, n) <= 1
    ensures var s := TransactionSteps(k); HeldAfter(s, |s|) == 0
  {
    var s := TransactionSteps(k);
    var done := [Complete(k)];
    assert GateSteps(done) == [] by { assert done[1..] == []; }
    if k == Deposit {
      assert s[1..] == done;
      assert HeldAfter(s, 1) == 0;
      assert HeldAfter(s, 2) == 0;
    } else {
      var rSafe := [ReleaseSafe] + done;
      var aSafe := [AcquireSafe] + rSafe;
      var rMgr := [ReleaseManager] + aSafe;
      var aMgr := [AcquireManager] + rMgr;
      assert rSafe[1..] == done && aSafe[1..] == rSafe && rMgr[1..] == aSafe && aMgr[1..] == rMgr && s[1..] == aMgr;
      assert GateSteps(rSafe) == [ReleaseSafe];
      assert GateSteps(aSafe) == [AcquireSafe, ReleaseSafe];
      assert GateSteps(rMgr) == [ReleaseManager, AcquireSafe, ReleaseSafe];
      assert GateSteps(aMgr) == [AcquireManager, ReleaseManager, AcquireSafe, ReleaseSafe];
      assert HeldAfter(s, 1) == 0;
      assert HeldAfter(s, 2) == 1;
      assert HeldAfter(s, 3) == 0;
      assert HeldAfter(s, 4) == 1;
      assert HeldAfter(s, 5) == 0;
      assert HeldAfter(s, 6) == 0;
    }
  }

  // ---------------------------------------------------------------------
  // The life of one customer
  // ---------------------------------------------------------------------

  /** The events of one customer thread, in program order. */
  datatype Event =
    | EnterDoor         // sem_wait on the door
    | ScanTellers       // the locked first-free scan
    | Do(step: Step)    // a transaction step
    | FreeTeller        // the locked release of the teller
    | ExitDoor          // sem_post on the door
    | Decrement         // the locked decrement of customersRemaining

  function Lift(steps: seq<Step>): (events: seq<Event>)
    ensures |events| == |steps|
    ensures forall i :: 0 <= i < |steps| ==> events[i] == Do(steps[i])
  {
    if steps == [] then [] else [Do(steps[0])] + Lift(steps[1..])
  }

  /** The transaction steps recorded in `events`, in order. */
  function StepsOf(events: seq<Event>): seq<Step> {
    if events == [] then []
    else (if events[0].Do? then [events[0].step] else []) + StepsOf(events[1..])
  }

  lemma {:induction false} StepsOfAppend(a: seq<Event>, b: seq<Event>)
    ensures StepsOf(a + b) == StepsOf(a) + StepsOf(b)
  {
    if a != [] {
      assert a + b != [] && (a + b)[0] == a[0];
      assert (a + b)[1..] == a[1..] + b;
      StepsOfAppend(a[1..], b);
    } else {
      assert a + b == b;
    }
  }

  lemma {:induction false} StepsOfLift(steps: seq<Step>)
    ensures StepsOf(Lift(steps)) == steps
  {
    if steps != [] {
      assert Lift(steps)[1..] == Lift(steps[1..]);
      StepsOfLift(steps[1..]);
    }
  }

  lemma {:induction false} StepsOfNone(events: seq<Event>)
    requires forall i :: 0 <= i < |events| ==> !events[i].Do?
    ensures StepsOf(events) == []
  {
    if events != [] {
      StepsOfNone(events[1..]);
    }
  }

  /** The events of one customer thread that got `teller` from the scan. */
  function CustomerEvents(k: Kind, teller: int): (events: seq<Event>)
    ensures |events| == if teller != -1 then 5 + |TransactionSteps(k)| else 4
    ensures events[0] == EnterDoor && events[1] == ScanTellers
  {
    [EnterDoor, ScanTellers]
    + (if teller != -1 then Lift(TransactionSteps(k)) + [FreeTeller] else [])
    + [ExitDoor, Decrement]
  }

  /** The events between entering and leaving the bank. */
  function TellerEvents(k: Kind, teller: int): (events: seq<Event>)
    ensures |events| >= 1 && events[0] == ScanTellers
  {
    [ScanTellers] + (if teller != -1 then Lift(TransactionSteps(k)) + [FreeTeller] else [])
  }

  lemma CustomerEventsSplit(k: Kind, teller: int)
    ensures CustomerEvents(k, teller) == [EnterDoor] + TellerEvents(k, teller) + [ExitDoor, Decrement]
  {
  }

  /** The customer enters through the door first, releases it once, and only
      then decrements the remaining count, which it does exactly once; a
      customer that found no teller does nothing in between, and one that got
      a teller performs exactly the steps of its transaction kind and then
      frees the teller exactly once. */
  lemma CustomerEventsOrder(k: Kind, teller: int)
    ensures var e := CustomerEvents(k, teller);
      && |e| >= 4
      && e[0] == EnterDoor
      && e[|e| - 1] == Decrement && e[|e| - 2] == ExitDoor
      && (forall i :: 0 <= i < |e| - 1 ==> e[i] != Decrement)
      && (forall i :: 0 <= i < |e| - 2 ==> e[i] != ExitDoor)
      && (teller == -1 ==> forall i :: 0 <= i < |e| ==> !e[i].Do? && e[i] != FreeTeller)
      && (teller != -1 ==>
            StepsOf(e) == TransactionSteps(k)
            && e[|e| - 3] == FreeTeller
            && forall i :: 0 <= i < |e| - 3 ==> e[i] != FreeTeller)
  {
    var e := CustomerEvents(k, teller);
    var middle := if teller != -1 then Lift(TransactionSteps(k)) + [FreeTeller] else [];
    assert e == [EnterDoor, ScanTellers] + middle + [ExitDoor, Decrement];
    if teller != -1 {
      StepsOfAppend([EnterDoor, ScanTellers] + Lift(TransactionSteps(k)), [FreeTeller] + [ExitDoor, Decrement]);
      StepsOfAppend([EnterDoor, ScanTellers], Lift(TransactionSteps(k)));
      StepsOfLift(TransactionSteps(k));
      StepsOfNone([EnterDoor, ScanTellers]);
      StepsOfNone([FreeTeller] + [ExitDoor, Decrement]);
      assert e == ([EnterDoor, ScanTellers] + Lift(TransactionSteps(k))) + ([FreeTeller] + [ExitDoor, Decrement]);
    }
  }

  lemma AppendAssoc<T>(a: seq<T>, b: seq<T>, c: seq<T>)
    ensures (a + b) + c == a + (b + c)
  {
  }

  // ---------------------------------------------------------------------
  // Customer identifiers
  // ---------------------------------------------------------------------

  /** The identifiers 0 .. n-1 that `main` hands to its threads. */
  ghost function IdsBelow(n: nat): (ids: set<nat>)
    ensures forall x: nat :: x in ids <==> x < n
    ensures |ids| == n
  {
    if n == 0 then {} else IdsBelow(n - 1) + {n - 1}
  }

  ghost function CustomerIds(): set<nat> {
    IdsBelow(NumCustomers)
  }

  /** A subset of the first `n` identifiers has `n` members exactly when it
      is all of them. */
  lemma {:induction false} FullSubset(s: set<nat>, n: nat)
    requires s <= IdsBelow(n)
    ensures |s| <= n
    ensures |s| == n <==> s == IdsBelow(n)
  {
    if n > 0 {
      if n - 1 in s {
        FullSubset(s - {n - 1}, n - 1);
        if |s| == n {
          assert s == (s - {n - 1}) + {n - 1};
        }
      } else {
        FullSubset(s, n - 1);
      }
    }
  }

  // ---------------------------------------------------------------------
  // The shared state
  // ---------------------------------------------------------------------

  class Bank {
    /** `tellerAvailable[NUM_TELLERS]`, initially all 1. */
    const tellerAvailable: array<int>
    /** `customersRemaining`, initially NUM_CUSTOMERS. */
    var customersRemaining: int
    /** The customers that have already decremented the counter. */
    ghost var finished: set<nat>
    /** The events of the customer threads so far, in the order they ran. */
    ghost var trace: seq<Event>

    ghost predicate Valid()
      reads this, tellerAvailable
    {
      && tellerAvailable.Length == NumTellers
      && IsFlagTable(tellerAvailable[..])
      && finished <= CustomerIds()
      && customersRemaining == NumCustomers - |finished|
    }

    /** The globals as the program initialises them. */
    constructor ()
      ensures Valid() && fresh(tellerAvailable)
      ensures tellerAvailable[..] == [1, 1, 1]
      ensures customersRemaining == NumCustomers && finished == {} && trace == []
    {
      tellerAvailable := new int[NumTellers](_ => 1);
      customersRemaining := NumCustomers;
      finished := {};
      trace := [];
      new;
      assert tellerAvailable[..] == [1, 1, 1];
    }

    /** `sem_wait` on the door; its counting is not modelled, only its place
        in the trace. */
    method AcquireDoor()
      requires Valid()
      modifies this`trace
      ensures Valid()
      ensures trace == old(trace) + [EnterDoor]
    {
      trace := trace + [EnterDoor];
    }

    /** The locked scan of `customerThread`: claim the lowest free teller. */
    method ClaimTeller() returns (teller: int)
      requires Valid()
      modifies this`trace, tellerAvailable
      ensures Valid()
      ensures (tellerAvailable[..], teller) == Claim(old(tellerAvailable[..]))
      ensures trace == old(trace) + [ScanTellers]
    {
      ClaimReleaseRoundTrip(tellerAvailable[..]);
      teller := -1;
      for i := 0 to tellerAvailable.Length
        invariant tellerAvailable[..] == old(tellerAvailable[..])
        invariant forall j :: 0 <= j < i ==> tellerAvailable[j] == 0
      {
        if tellerAvailable[i] != 0 {
          tellerAvailable[i] := 0;
          teller := i;
          break;
        }
      }
      trace := trace + [ScanTellers];
    }

    /** The transaction with the claimed teller: the manager and the safe are
        taken and given back in the order `TransactionSteps` gives. */
    method Transact(kind: Kind)
      requires Valid()
      modifies this`trace
      ensures Valid()
      ensures trace == old(trace) + Lift(TransactionSteps(kind))
    {
      trace := trace + Lift(TransactionSteps(kind));
    }

    /** The locked release after service: teller `t` is free again. */
    method ReleaseTeller(t: int)
      requires Valid() && 0 <= t < NumTellers
      modifies this`trace, tellerAvailable
      ensures Valid()
      ensures tellerAvailable[..] == Release(old(tellerAvailable[..]), t)
      ensures trace == old(trace) + [FreeTeller]
    {
      tellerAvailable[t] := 1;
      trace := trace + [FreeTeller];
    }

    /** `sem_post` on the door. */
    method ReleaseDoor()
      requires Valid()
      modifies this`trace
      ensures Valid()
      ensures trace == old(trace) + [ExitDoor]
    {
      trace := trace + [ExitDoor];
    }

    /** The locked decrement a customer performs once, as its last act. */
    method CustomerDone(id: nat)
      requires Valid() && id < NumCustomers && id !in finished
      modifies this`customersRemaining, this`finished, this`trace
      ensures Valid()
      ensures customersRemaining == old(customersRemaining) - 1
      ensures finished == old(finished) + {id}
      ensures trace == old(trace) + [Decrement]
    {
      customersRemaining := customersRemaining - 1;
      finished := finished + {id};
      trace := trace + [Decrement];
    }

    /** The locked test of `tellerThread`: a teller leaves when no customer
        remains, which is exactly when every customer has decremented. */
    method TellerShouldLeave() returns (leave: bool)
      requires Valid()
      ensures leave <==> customersRemaining <= 0
      ensures leave <==> finished == CustomerIds()
    {
      FullSubset(finished, NumCustomers);
      leave := customersRemaining <= 0;
    }

    /** The part of a customer thread between entering and leaving the bank:
        claim a teller and, if one was free, transact and release it. */
    method VisitTeller(kind: Kind) returns (teller: int)
      requires Valid()
      modifies this`trace, tellerAvailable
      ensures Valid()
      ensures teller == FirstAvailable(old(tellerAvailable[..]))
      ensures trace == old(trace) + TellerEvents(kind, teller)
      ensures tellerAvailable[..] == old(tellerAvailable[..])
    {
      ghost var table := tellerAvailable[..];
      ghost var before := trace;
      ClaimReleaseRoundTrip(table);
      teller := ClaimTeller();
      if teller != -1 {
        Transact(kind);
        ReleaseTeller(teller);
        AppendAssoc(before + [ScanTellers], Lift(TransactionSteps(kind)), [FreeTeller]);
        AppendAssoc(before, [ScanTellers], Lift(TransactionSteps(kind)) + [FreeTeller]);
      }
    }

    /** One customer thread with its steps run back to back, in program
        order: door, claim, transaction, release, door, decrement. */
    method CustomerThread(id: nat, kind: Kind) returns (teller: int)
      requires Valid() && id < NumCustomers && id !in finished
      modifies this, tellerAvailable
      ensures Valid()
      ensures teller == FirstAvailable(old(tellerAvailable[..]))
      ensures trace == old(trace) + CustomerEvents(kind, teller)
      ensures tellerAvailable[..] == old(tellerAvailable[..])
      ensures customersRemaining == old(customersRemaining) - 1
      ensures finished == old(finished) + {id}
    {
      ghost var before := trace;
      AcquireDoor();
      teller := VisitTeller(kind);
      ReleaseDoor();
      CustomerDone(id);
      ghost var visit := TellerEvents(kind, teller);
      AppendAssoc(before, [EnterDoor], visit);
      AppendAssoc(before + ([EnterDoor] + visit), [ExitDoor], [Decrement]);
      AppendAssoc(before, [EnterDoor] + visit, [ExitDoor, Decrement]);
      CustomerEventsSplit(kind, teller);
    }

    /** All NUM_CUSTOMERS customers, one after another: afterwards no
        customer remains, every teller would leave, and the table is as it
        started. */
    method ServeAll(kinds: seq<Kind>) returns (leave: bool)
      requires Valid() && finished == {} && |kinds| == NumCustomers
      modifies this, tellerAvailable
      ensures Valid()
      ensures customersRemaining == 0 && finished == CustomerIds()
      ensures leave
      ensures tellerAvailable[..] == old(tellerAvailable[..])
    {
      for id := 0 to NumCustomers
        invariant Valid()
        invariant finished == IdsBelow(id)
        invariant tellerAvailable[..] == old(tellerAvailable[..])
      {
        assert IdsBelow(id + 1) == IdsBelow(id) + {id};
        var _ := CustomerThread(id, kinds[id]);
      }
      leave := TellerShouldLeave();
    }
  }
}
