/** Running a task again and again with a minimum distance (packages/utils/src/asyncFlows.ts). Time comes
    in as the durations of the task and of the pauses. */
module AsyncFlows {
  import opened Wrappers

  /** One turn: how long the task takes, how much longer than asked the pause takes, and whether the
      pause is cut short by an abort. */
  datatype Turn = Turn(duration: nat, late: nat, aborted: bool)

  /** The caller's list of intervals, which the runner uses up. */
  class Intervals {
    var items: seq<nat>

    constructor (items: seq<nat>)
      ensures this.items == items
    {
      this.items := items;
    }
  }

  function Max(a: int, b: int): int
  {
    if a > b then a else b
  }

  /** The interval after the k-th start: the listed one, and the last one for all later turns; a listed
      0 counts as none. */
  function IntervalAt(items: seq<nat>, k: nat): nat
    requires items != []
  {
    if k < |items| && items[k] != 0 then items[k] else items[|items| - 1]
  }

  /** The time between the k-th start and the next: the pause ends when both the interval and the task
      have, but for its own lateness. */
  function Gap(items: seq<nat>, turn: Turn, k: nat): int
    requires items != []
  {
    Max(IntervalAt(items, k), turn.duration) + turn.late
  }

  lemma GapIs(items: seq<nat>, turn: Turn, k: nat, left: seq<nat>)
    requires items != [] && left == if k < |items| then items[k..] else []
    ensures var interval := if left != [] && left[0] != 0 then left[0] else items[|items| - 1];
      turn.duration + Max(interval - turn.duration, 0) + turn.late == Gap(items, turn, k)
  {
  }

  lemma GapCovers(items: seq<nat>, turn: Turn, k: nat)
    requires items != []
    ensures Gap(items, turn, k) >= IntervalAt(items, k)
  {
  }

  /** The turns until an abort. */
  predicate EndsWithAbort(turns: seq<Turn>)
  {
    turns != [] && turns[|turns| - 1].aborted && forall i :: 0 <= i < |turns| - 1 ==> !turns[i].aborted
  }

  /** `runAtMostEveryIntervals`: the times at which the task starts, up to the abort. Two starts are at
      least the interval apart, and no longer than needed: the pause ends when both the interval and the
      task have, but for its own lateness. The list is used up. */
  method RunAtMostEveryIntervals(list: Intervals, now0: int, turns: seq<Turn>) returns (r: Result<seq<int>, string>)
    requires EndsWithAbort(turns)
    modifies list
    ensures r.Err? <==> old(list.items) == []
    ensures r.Ok? ==> |r.value| == |turns| && r.value[0] == now0
    ensures r.Ok? ==> forall k :: 0 <= k < |turns| - 1 ==>
      r.value[k + 1] - r.value[k] == Gap(old(list.items), turns[k], k)
    ensures r.Ok? ==> forall k :: 0 <= k < |turns| - 1 ==> r.value[k + 1] - r.value[k] >= IntervalAt(old(list.items), k)
    ensures list.items == if |turns| < |old(list.items)| then old(list.items)[|turns|..] else []
  {
    hide Gap;
    hide IntervalAt;
    if list.items == [] { return Err("msArray must have at least one element"); }
    var last := list.items[|list.items| - 1];
    ghost var given := list.items;
    var now, starts := now0, [];
    for i := 0 to |turns|
      invariant |starts| == i
      invariant list.items == if i < |given| then given[i..] else []
      invariant i == 0 ==> now == now0
      invariant i > 0 ==> starts[0] == now0
      invariant forall k :: 0 <= k < i - 1 ==>
        starts[k + 1] - starts[k] == Gap(given, turns[k], k)
      invariant 0 < i < |turns| ==> now - starts[i - 1] == Gap(given, turns[i - 1], i - 1)
    {
      var lastRun := now;
      starts := starts + [lastRun];
      now := now + turns[i].duration;
      var interval := if list.items != [] && list.items[0] != 0 then list.items[0] else last;
      GapIs(given, turns[i], i, list.items);
      if list.items != [] { list.items := list.items[1..]; }
      var pause := Max(interval + lastRun - now, 0);
      if turns[i].aborted {
        forall k | 0 <= k < i { GapCovers(given, turns[k], k); }
        return Ok(starts);
      }
      now := now + pause + turns[i].late;
    }
    forall k | 0 <= k < |turns| - 1 { GapCovers(given, turns[k], k); }
    r := Ok(starts);
  }
}
