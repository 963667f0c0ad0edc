/** Cancelling a run against claiming its end, on one atomic cell. */
module RunControl {
  // One atomic cell decides between cancelling a run and claiming its end. Any number of
  // cancel and claim calls run at once; a claim's load and its compare-exchange are separate steps,
  // so any other call may act in between and force another turn of the claim's loop.

  datatype Cell = Running | CancelRequested | Terminal | TerminalCancelled

  /** A call in progress or answered. `loads` counts the turns of the claim's loop so far. */
  datatype Call =
    | Cancelling
    | CancelAnswer(first: bool)
    | Loading(loads: nat)
    | Swapping(loads: nat, seen: Cell)
    | Claimed(loads: nat, cancellationRequested: bool)
    | Refused(loads: nat)

  datatype Control = Control(began: bool, cell: Cell, calls: seq<Call>)

  function CompareExchange(cell: Cell, expected: Cell, desired: Cell): (Cell, bool) {
    if cell == expected then (desired, true) else (cell, false)
  }

  /** One step of call `i`; an answered call has no step left. */
  function Step(c: Control, i: nat): Control
    requires i < |c.calls|
  {
    match c.calls[i]
    case Cancelling =>
      var (cell, ok) := CompareExchange(c.cell, Running, CancelRequested);
      c.(cell := cell, calls := c.calls[i := CancelAnswer(ok)])
    case Loading(loads) =>
      if c.cell == Terminal || c.cell == TerminalCancelled then c.(calls := c.calls[i := Refused(loads + 1)])
      else c.(calls := c.calls[i := Swapping(loads + 1, c.cell)])
    case Swapping(loads, seen) =>
      var terminal := if seen == Running then Terminal else TerminalCancelled;
      var (cell, ok) := CompareExchange(c.cell, seen, terminal);
      c.(cell := cell, calls := c.calls[i := if ok then Claimed(loads, seen == CancelRequested) else Loading(loads)])
    case _ => c
  }

  predicate IsTerminal(cell: Cell) {
    cell == Terminal || cell == TerminalCancelled
  }

  predicate HasCancellation(cell: Cell) {
    cell == CancelRequested || cell == TerminalCancelled
  }

  /** How far the cell has moved; it never moves back. */
  function Rank(cell: Cell): nat {
    match cell
    case Running => 0
    case CancelRequested => 1
    case _ => 2
  }

  ghost predicate Init(c: Control) {
    && c.cell == (if c.began then CancelRequested else Running)
    && forall i | 0 <= i < |c.calls| :: c.calls[i] == Cancelling || c.calls[i] == Loading(0)
  }

  ghost predicate CallOk(c: Control, call: Call) {
    match call
    case CancelAnswer(first) => first ==> HasCancellation(c.cell) && !c.began
    case Loading(loads) => loads <= Rank(c.cell)
    case Swapping(loads, seen) => (seen == Running || seen == CancelRequested) && Rank(seen) <= Rank(c.cell) && loads <= Rank(seen) + 1
    case Claimed(loads, flag) => IsTerminal(c.cell) && flag == HasCancellation(c.cell) && loads <= 2
    case Refused(loads) => loads <= 3
    case Cancelling => true
  }

  ghost predicate Inv(c: Control) {
    && (forall i | 0 <= i < |c.calls| :: CallOk(c, c.calls[i]))
    && (forall i, j | 0 <= i < j < |c.calls| :: !(c.calls[i].Claimed? && c.calls[j].Claimed?))
    && (forall i, j | 0 <= i < j < |c.calls| :: !(c.calls[i] == CancelAnswer(true) && c.calls[j] == CancelAnswer(true)))
    && (IsTerminal(c.cell) ==> exists i :: 0 <= i < |c.calls| && c.calls[i].Claimed?)
    && (HasCancellation(c.cell) && !c.began ==> CancelAnswer(true) in c.calls)
    && (c.began ==> HasCancellation(c.cell))
  }

  /** The control after the listed calls each take a step, in that order. */
  function Run(c: Control, schedule: seq<nat>): Control
    requires forall k | 0 <= k < |schedule| :: schedule[k] < |c.calls|
    decreases |schedule|
  {
    if schedule == [] then c else Run(Step(c, schedule[0]), schedule[1..])
  }

  lemma StepKeepsCall(c: Control, i: nat, k: nat)
    requires i < |c.calls| && k < |c.calls| && CallOk(c, c.calls[i]) && CallOk(c, c.calls[k])
    requires c.began ==> HasCancellation(c.cell)
    requires k != i ==> !(c.calls[i].Swapping? && c.calls[i].seen == c.cell && c.calls[k].Claimed?)
    ensures CallOk(Step(c, i), Step(c, i).calls[k])
  {
  }

  /** The witness of a terminal or cancelled cell is the call that made it so. */
  lemma StepKeepsWitness(c: Control, i: nat, call: Call)
    requires i < |c.calls| && call in c.calls && (call.Claimed? || call.CancelAnswer?)
    ensures call in Step(c, i).calls
  {
    var w :| 0 <= w < |c.calls| && c.calls[w] == call;
    assert Step(c, i).calls[w] == call;
  }

  lemma StepKeeps(c: Control, i: nat)
    requires Inv(c) && i < |c.calls|
    ensures Inv(Step(c, i))
  {
    var next := Step(c, i);
    forall k | 0 <= k < |c.calls| ensures CallOk(next, next.calls[k]) {
      assert CallOk(c, c.calls[k]) && CallOk(c, c.calls[i]);
      StepKeepsCall(c, i, k);
    }
    if IsTerminal(c.cell) {
      var w :| 0 <= w < |c.calls| && c.calls[w].Claimed?;
      StepKeepsWitness(c, i, c.calls[w]);
    } else if IsTerminal(next.cell) {
      assert next.calls[i].Claimed?;
    }
    if HasCancellation(c.cell) && !c.began {
      StepKeepsWitness(c, i, CancelAnswer(true));
    } else if HasCancellation(next.cell) && !c.began {
      assert next.calls[i] == CancelAnswer(true);
    }
  }

  lemma {:induction false} RunKeeps(c: Control, schedule: seq<nat>)
    requires Inv(c) && forall k | 0 <= k < |schedule| :: schedule[k] < |c.calls|
    ensures Inv(Run(c, schedule))
    ensures Run(c, schedule).began == c.began && |Run(c, schedule).calls| == |c.calls|
    decreases |schedule|
  {
    if schedule != [] {
      StepKeeps(c, schedule[0]);
      RunKeeps(Step(c, schedule[0]), schedule[1..]);
    }
  }

  /**
   Whatever the schedule: one claim at most wins, one cancel at most is told it was first, the
   winner's flag says exactly whether cancellation came before it, and no claim loops more than
   three times: it has looped twice at most while it has no answer.
   */
  lemma OneWinner(c: Control, schedule: seq<nat>)
    requires Init(c) && forall k | 0 <= k < |schedule| :: schedule[k] < |c.calls|
    ensures var calls := Run(c, schedule).calls;
            && |calls| == |c.calls|
            && (forall i, j | 0 <= i < j < |calls| :: !(calls[i].Claimed? && calls[j].Claimed?))
            && (forall i, j | 0 <= i < j < |calls| :: !(calls[i] == CancelAnswer(true) && calls[j] == CancelAnswer(true)))
            && (forall i | 0 <= i < |calls| && calls[i].Claimed? ::
                  calls[i].cancellationRequested <==> c.began || CancelAnswer(true) in calls)
            && (forall i | 0 <= i < |calls| && (calls[i].Claimed? || calls[i].Refused?) :: calls[i].loads <= 3)
            && (forall i | 0 <= i < |calls| && (calls[i].Loading? || calls[i].Swapping?) :: calls[i].loads <= 2)
  {
    assert Inv(c);
    RunKeeps(c, schedule);
    var end := Run(c, schedule);
    forall i | 0 <= i < |end.calls| ensures CallOk(end, end.calls[i]) {}
    assert Rank(end.cell) <= 2;
    if CancelAnswer(true) in end.calls {
      var w :| 0 <= w < |end.calls| && end.calls[w] == CancelAnswer(true);
      assert CallOk(end, end.calls[w]);
    }
  }

  /** A claim is refused only because another one already won. */
  lemma RefusedMeansLost(c: Control, schedule: seq<nat>, i: nat)
    requires Init(c) && (forall k | 0 <= k < |schedule| :: schedule[k] < |c.calls|) && i < |c.calls|
    ensures |Run(c, schedule).calls| == |c.calls|
    ensures var end := Run(c, schedule);
            end.calls[i].Refused? ==> exists j :: 0 <= j < |end.calls| && j != i && end.calls[j].Claimed?
  {
    assert Inv(c);
    RunKeeps(c, schedule);
    RefusedMeansTerminal(c, schedule, i);
  }

  lemma {:induction false} RefusedMeansTerminal(c: Control, schedule: seq<nat>, i: nat)
    requires Inv(c) && (forall k | 0 <= k < |schedule| :: schedule[k] < |c.calls|) && i < |c.calls|
    requires c.calls[i].Refused? ==> IsTerminal(c.cell)
    ensures |Run(c, schedule).calls| == |c.calls|
    ensures Run(c, schedule).calls[i].Refused? ==> IsTerminal(Run(c, schedule).cell)
    decreases |schedule|
  {
    if schedule != [] {
      assert CallOk(c, c.calls[schedule[0]]);
      StepKeeps(c, schedule[0]);
      RefusedMeansTerminal(Step(c, schedule[0]), schedule[1..], i);
    }
  }
}
