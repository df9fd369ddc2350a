/** Model of banker.cpp: the bank whose customers claim the first free
    teller or, when none is free, join the shortest of the tellers' lines,
    and whose tellers serve their own line front first.  Each
    mutex-protected block of the program is one atomic method of `Bank`; the
    thread interleaving is not modelled. */
module BankerCpp {

  const NumTellers: nat := 3
  const NumCustomers: nat := 5
  const DoorCapacity: nat := 2
  const SafeCapacity: nat := 2
  const ManagerCapacity: nat := 1

  datatype Option<T> = None | Some(value: T)

  // ---------------------------------------------------------------------
  // The teller availability table (a `bool` array: true means free)
  // ---------------------------------------------------------------------

  /** The lowest index at or after `from` whose flag is true, or -1. */
  function FirstAvailableFrom(flags: seq<bool>, from: nat): (r: int)
    requires from <= |flags|
    ensures r == -1 || from <= r < |flags|
    ensures r == -1 <==> forall j :: from <= j < |flags| ==> !flags[j]
    ensures r != -1 ==> flags[r] && forall j :: from <= j < r ==> !flags[j]
    decreases |flags| - from
  {
    if from == |flags| then -1
    else if flags[from] then from
    else FirstAvailableFrom(flags, from + 1)
  }

  /** The teller the scan in `customerThread` selects: the lowest free one, or -1. */
  function FirstAvailable(flags: seq<bool>): (r: int)
    ensures r == -1 <==> forall j :: 0 <= j < |flags| ==> !flags[j]
    ensures r != -1 ==> 0 <= r < |flags| && flags[r] && forall j :: 0 <= j < r ==> !flags[j]
  {
    FirstAvailableFrom(flags, 0)
  }

  /** The table after the scan and the teller it returns: only the selected
      entry changes, from true to false. */
  function Claim(flags: seq<bool>): (c: (seq<bool>, int))
    ensures |c.0| == |flags|
    ensures c.1 == -1 <==> forall j :: 0 <= j < |flags| ==> !flags[j]
    ensures c.1 == -1 ==> c.0 == flags
    ensures c.1 != -1 ==> 0 <= c.1 < |flags| && flags[c.1] && !c.0[c.1]
    ensures c.1 != -1 ==> forall j :: 0 <= j < c.1 ==> !flags[j]
    ensures forall j :: 0 <= j < |flags| && j != c.1 ==> c.0[j] == flags[j]
  {
    var i := FirstAvailable(flags);
    if i == -1 then (flags, -1) else (flags[i := false], i)
  }

  // ---------------------------------------------------------------------
  // The tellers' lines
  // ---------------------------------------------------------------------

  /** The line the `shortestLine` loop settles on: it starts at line 0 and
      moves only to a strictly shorter line, so it is a shortest line and
      the lowest-numbered among equally short ones. */
  function ShortestLine(lines: seq<seq<int>>): (k: nat)
    requires |lines| > 0
    ensures k < |lines|
    ensures forall j :: 0 <= j < |lines| ==> |lines[k]| <= |lines[j]|
    ensures forall j :: 0 <= j < k ==> |lines[j]| > |lines[k]|
    decreases |lines|
  {
    if |lines| == 1 then 0
    else
      var k := ShortestLine(lines[..|lines| - 1]);
      if |lines[|lines| - 1]| < |lines[k]| then |lines| - 1 else k
  }

  /** The lines after `customerId` is pushed onto line `t`. */
  function Join(lines: seq<seq<int>>, t: nat, customerId: int): seq<seq<int>>
    requires t < |lines|
  {
    lines[t := lines[t] + [customerId]]
  }

  /** Every customer waiting in any of the lines, with multiplicity. */
  function AllQueued(lines: seq<seq<int>>): multiset<int> {
    if lines == [] then multiset{} else multiset(lines[0]) + AllQueued(lines[1..])
  }

  /** Joining grows exactly line `t`, by `customerId` at its tail, leaves
      every other line as it was, and adds exactly one waiting entry for
      `customerId` across all lines. */
  lemma {:induction false} JoinAddsOnce(lines: seq<seq<int>>, t: nat, customerId: int)
    requires t < |lines|
    ensures |Join(lines, t, customerId)| == |lines|
    ensures Join(lines, t, customerId)[t] == lines[t] + [customerId]
    ensures forall j :: 0 <= j < |lines| && j != t ==> Join(lines, t, customerId)[j] == lines[j]
    ensures AllQueued(Join(lines, t, customerId)) == AllQueued(lines) + multiset{customerId}
  {
    var after := Join(lines, t, customerId);
    if t == 0 {
      assert after[1..] == lines[1..];
    } else {
      JoinAddsOnce(lines[1..], t - 1, customerId);
      assert after[1..] == Join(lines[1..], t - 1, customerId);
    }
  }

  // ---------------------------------------------------------------------
  // First in, first out on one line
  // ---------------------------------------------------------------------

  /** What happens to one teller's line: a customer joins it, or the
      teller takes a step of its loop. */
  datatype LineOp = Push(customerId: int) | Serve

  function Pushed(ops: seq<LineOp>): seq<int> {
    if ops == [] then []
    else (if ops[0].Push? then [ops[0].customerId] else []) + Pushed(ops[1..])
  }

  /** The line after `ops` and the customers served, in order.  A serve on
      an empty line changes nothing. */
  function RunLine(line: seq<int>, ops: seq<LineOp>): (r: (seq<int>, seq<int>))
    ensures |r.1| <= |ops|
    decreases |ops|
  {
    if ops == [] then (line, [])
    else match ops[0]
      case Push(c) => RunLine(line + [c], ops[1..])
      case Serve =>
        if line == [] then RunLine(line, ops[1..])
        else
          var (rest, out) := RunLine(line[1..], ops[1..]);
          (rest, [line[0]] + out)
  }

  /** The customers a line serves, followed by those still waiting, are
      exactly those it held and those pushed, in order: the line is served
      in push order, and nobody is lost or served twice. */
  lemma {:induction false} LineIsFifo(line: seq<int>, ops: seq<LineOp>)
    ensures RunLine(line, ops).1 + RunLine(line, ops).0 == line + Pushed(ops)
    ensures RunLine(line, ops).1 <= line + Pushed(ops)
    decreases |ops|
  {
    if ops != [] {
      match ops[0]
      case Push(c) =>
        LineIsFifo(line + [c], ops[1..]);
        assert Pushed(ops) == [c] + Pushed(ops[1..]);
        assert line + Pushed(ops) == (line + [c]) + Pushed(ops[1..]);
      case Serve =>
        assert Pushed(ops) == Pushed(ops[1..]);
        if line == [] {
          LineIsFifo(line, ops[1..]);
        } else {
          LineIsFifo(line[1..], ops[1..]);
          var (rest, out) := RunLine(line[1..], ops[1..]);
          assert RunLine(line, ops) == (rest, [line[0]] + out);
          assert line + Pushed(ops) == [line[0]] + (line[1..] + Pushed(ops[1..]));
          assert ([line[0]] + out) + rest == [line[0]] + (out + rest);
        }
    }
  }

  // ---------------------------------------------------------------------
  // The shared state
  // ---------------------------------------------------------------------

  class Bank {
    /** `tellerAvailable[NUM_TELLERS]`, initially all true. */
    const tellerAvailable: array<bool>
    /** `tellerLines[NUM_TELLERS]`, one queue of customer ids per teller. */
    const tellerLines: array<seq<int>>

    ghost predicate Valid()
      reads this
    {
      tellerAvailable.Length == NumTellers && tellerLines.Length == NumTellers
    }

    /** The globals as the program initialises them. */
    constructor ()
      ensures Valid() && fresh(tellerAvailable) && fresh(tellerLines)
      ensures tellerAvailable[..] == [true, true, true]
      ensures tellerLines[..] == [[], [], []]
    {
      tellerAvailable := new bool[NumTellers](_ => true);
      tellerLines := new seq<int>[NumTellers](_ => []);
      new;
      assert tellerAvailable[..] == [true, true, true];
      assert tellerLines[..] == [[], [], []];
    }

    /** The scan at the start of the customer's critical section. */
    method ClaimTeller() returns (teller: int)
      requires Valid()
      modifies tellerAvailable
      ensures (tellerAvailable[..], teller) == Claim(old(tellerAvailable[..]))
    {
      teller := -1;
      for i := 0 to tellerAvailable.Length
        invariant tellerAvailable[..] == old(tellerAvailable[..])
        invariant forall j :: 0 <= j < i ==> !tellerAvailable[j]
      {
        if tellerAvailable[i] {
          tellerAvailable[i] := false;
          teller := i;
          break;
        }
      }
    }

    /** No teller is free: push `customerId` onto the shortest line. */
    method JoinShortestLine(customerId: int) returns (line: nat)
      requires Valid()
      modifies tellerLines
      ensures line == ShortestLine(old(tellerLines[..]))
      ensures tellerLines[..] == Join(old(tellerLines[..]), line, customerId)
    {
      line := 0;
      for i := 1 to tellerLines.Length
        invariant line == ShortestLine(tellerLines[..i])
      {
        assert tellerLines[..i + 1][..i] == tellerLines[..i];
        if |tellerLines[i]| < |tellerLines[line]| {
          line := i;
        }
      }
      assert tellerLines[..tellerLines.Length] == tellerLines[..];
      tellerLines[line] := tellerLines[line] + [customerId];
    }

    /** The customer's first critical section: claim a free teller, or
        else join the shortest line (`line` is -1 when a teller was claimed). */
    method EnterBank(customerId: int) returns (teller: int, line: int)
      requires Valid()
      modifies tellerAvailable, tellerLines
      ensures (tellerAvailable[..], teller) == Claim(old(tellerAvailable[..]))
      ensures teller != -1 ==> line == -1 && tellerLines[..] == old(tellerLines[..])
      ensures teller == -1 ==>
        && line == ShortestLine(old(tellerLines[..]))
        && tellerLines[..] == Join(old(tellerLines[..]), line, customerId)
    {
      teller := ClaimTeller();
      line := -1;
      if teller == -1 {
        line := JoinShortestLine(customerId);
      }
    }

    /** The customer's second critical section: push itself onto the line of
        the teller it claimed. */
    method PushAssigned(customerId: int, teller: int)
      requires Valid() && 0 <= teller < NumTellers
      modifies tellerLines
      ensures tellerLines[..] == Join(old(tellerLines[..]), teller, customerId)
    {
      tellerLines[teller] := tellerLines[teller] + [customerId];
    }

    /** One customer thread with its critical sections run back to back: it
        ends up in exactly one line, the claimed teller's if one was free,
        else the shortest, and is pushed there exactly once. */
    method CustomerThread(customerId: int) returns (queue: nat)
      requires Valid()
      modifies tellerAvailable, tellerLines
      ensures queue < NumTellers
      ensures var t := FirstAvailable(old(tellerAvailable[..]));
        if t != -1 then
          queue == t && tellerAvailable[..] == old(tellerAvailable[..])[t := false]
        else
          queue == ShortestLine(old(tellerLines[..])) && tellerAvailable[..] == old(tellerAvailable[..])
      ensures tellerLines[..] == Join(old(tellerLines[..]), queue, customerId)
      ensures forall j :: 0 <= j < NumTellers && j != queue ==> tellerLines[j] == old(tellerLines[j])
      ensures AllQueued(tellerLines[..]) == AllQueued(old(tellerLines[..])) + multiset{customerId}
      ensures tellerLines[queue] == RunLine(old(tellerLines[queue]), [Push(customerId)]).0
    {
      ghost var lines := tellerLines[..];
      var teller, line := EnterBank(customerId);
      if teller != -1 {
        PushAssigned(customerId, teller);
        queue := teller;
      } else {
        queue := line;
      }
      JoinAddsOnce(lines, queue, customerId);
    }

    /** The teller's first critical section: take the front of its own line
        and mark itself busy, or report an empty line and change nothing. */
    method BeginServe(tellerId: nat) returns (served: Option<int>)
      requires Valid() && tellerId < NumTellers
      modifies tellerAvailable, tellerLines
      ensures old(tellerLines[tellerId]) != [] ==>
        && served == Some(old(tellerLines[tellerId])[0])
        && tellerLines[..] == old(tellerLines[..])[tellerId := old(tellerLines[tellerId])[1..]]
        && tellerAvailable[..] == old(tellerAvailable[..])[tellerId := false]
      ensures old(tellerLines[tellerId]) == [] ==>
        && served == None
        && tellerLines[..] == old(tellerLines[..])
        && tellerAvailable[..] == old(tellerAvailable[..])
    {
      if tellerLines[tellerId] != [] {
        var customerId := tellerLines[tellerId][0];
        tellerLines[tellerId] := tellerLines[tellerId][1..];
        tellerAvailable[tellerId] := false;
        served := Some(customerId);
      } else {
        served := None;
      }
    }

    /** The teller's second critical section, after serving: free again. */
    method FinishServe(tellerId: nat)
      requires Valid() && tellerId < NumTellers
      modifies tellerAvailable
      ensures tellerAvailable[..] == old(tellerAvailable[..])[tellerId := true]
    {
      tellerAvailable[tellerId] := true;
    }

    /** One pass of the teller loop: on a non-empty line the front customer
        is removed and served and the teller ends up free, whatever its flag
        was; on an empty line nothing changes. */
    method TellerStep(tellerId: nat) returns (served: Option<int>)
      requires Valid() && tellerId < NumTellers
      modifies tellerAvailable, tellerLines
      ensures old(tellerLines[tellerId]) != [] ==>
        && served == Some(old(tellerLines[tellerId])[0])
        && tellerLines[..] == old(tellerLines[..])[tellerId := old(tellerLines[tellerId])[1..]]
        && tellerAvailable[..] == old(tellerAvailable[..])[tellerId := true]
      ensures old(tellerLines[tellerId]) == [] ==>
        && served == None
        && tellerLines[..] == old(tellerLines[..])
        && tellerAvailable[..] == old(tellerAvailable[..])
      ensures tellerLines[tellerId] == RunLine(old(tellerLines[tellerId]), [Serve]).0
      ensures RunLine(old(tellerLines[tellerId]), [Serve]).1 == if served.Some? then [served.value] else []
    {
      served := BeginServe(tellerId);
      if served.Some? {
        FinishServe(tellerId);
      }
    }
  }
}
