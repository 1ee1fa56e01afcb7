/** Free-time blocks of the daily briefing (plugins/task-intelligence/src/briefing/generator.ts).
    Times are in milliseconds; `open` and `close` are 9:00 and 17:00 of the day. */
module FreeTime {
  import opened Common

  type Id(==, !new)

  const HALF_HOUR := 30 * 60000

  datatype Event = Event(start: int, end: int)

  datatype Task = Task(id: Id, title: string)

  datatype Block = Block(start: int, end: int, taskId: Option<Id>, caption: string)

  // ----- Sorting by start -----

  predicate ByStart(s: seq<Event>) {
    forall i, j :: 0 <= i < j < |s| ==> s[i].start <= s[j].start
  }

  /** Insert behind events that start at the same time. */
  function Insert(e: Event, s: seq<Event>): seq<Event> {
    if s == [] || s[|s|-1].start <= e.start then s + [e]
    else Insert(e, s[..|s|-1]) + [s[|s|-1]]
  }

  /** The calendar ordered by start, stably. */
  function Sorted(events: seq<Event>): seq<Event> {
    if events == [] then [] else Insert(events[|events|-1], Sorted(events[..|events|-1]))
  }

  lemma {:induction false} InsertIsPermutation(e: Event, s: seq<Event>)
    ensures multiset(Insert(e, s)) == multiset(s) + multiset{e}
  {
    if s != [] && s[|s|-1].start > e.start {
      var n := |s| - 1;
      InsertIsPermutation(e, s[..n]);
      assert s == s[..n] + [s[n]];
    }
  }

  predicate StartBy(s: seq<Event>, t: int) {
    forall i :: 0 <= i < |s| ==> s[i].start <= t
  }

  lemma {:induction false} InsertStartsBy(e: Event, s: seq<Event>, t: int)
    requires StartBy(s, t) && e.start <= t
    ensures StartBy(Insert(e, s), t)
  {
    if s != [] && s[|s|-1].start > e.start {
      InsertStartsBy(e, s[..|s|-1], t);
    }
  }

  lemma {:induction false} InsertKeepsOrder(e: Event, s: seq<Event>)
    requires ByStart(s)
    ensures ByStart(Insert(e, s))
  {
    if s != [] && s[|s|-1].start > e.start {
      var n := |s| - 1;
      InsertKeepsOrder(e, s[..n]);
      InsertStartsBy(e, s[..n], s[n].start);
    }
  }

  lemma {:induction false} SortedIsPermutation(events: seq<Event>)
    ensures ByStart(Sorted(events)) && multiset(Sorted(events)) == multiset(events)
  {
    if events != [] {
      var n := |events| - 1;
      SortedIsPermutation(events[..n]);
      InsertKeepsOrder(events[n], Sorted(events[..n]));
      InsertIsPermutation(events[n], Sorted(events[..n]));
      assert events == events[..n] + [events[n]];
    }
  }

  lemma SortedIsSorted(events: seq<Event>)
    ensures ByStart(Sorted(events)) && |Sorted(events)| == |events|
    ensures forall e :: e in Sorted(events) <==> e in events
  {
    SortedIsPermutation(events);
    assert |multiset(Sorted(events))| == |Sorted(events)| && |multiset(events)| == |events|;
    assert forall e :: e in Sorted(events) <==> e in multiset(Sorted(events));
  }

  /** The events that start at `t`, in order. */
  function StartingAt(s: seq<Event>, t: int): seq<Event> {
    if s == [] then []
    else StartingAt(s[..|s|-1], t) + if s[|s|-1].start == t then [s[|s|-1]] else []
  }

  lemma {:induction false} InsertIsLast(e: Event, s: seq<Event>, t: int)
    requires ByStart(s)
    ensures StartingAt(Insert(e, s), t) == StartingAt(s, t) + if e.start == t then [e] else []
  {
    if s == [] || s[|s|-1].start <= e.start {
      assert (s + [e])[..|s|] == s;
    } else {
      var front, last := s[..|s|-1], s[|s|-1];
      InsertIsLast(e, front, t);
      assert Insert(e, s)[..|Insert(e, s)|-1] == Insert(e, front);
      if e.start == t {
        assert StartingAt(front, t) + [e] + [] == StartingAt(front, t) + [] + [e];
      } else {
        assert StartingAt(front, t) + [] == StartingAt(front, t);
      }
    }
  }

  /** Events that start at the same time keep their order. */
  lemma {:induction false} SortedIsStable(events: seq<Event>, t: int)
    ensures StartingAt(Sorted(events), t) == StartingAt(events, t)
  {
    if events != [] {
      var n := |events| - 1;
      SortedIsStable(events[..n], t);
      SortedIsPermutation(events[..n]);
      InsertIsLast(events[n], Sorted(events[..n]), t);
    }
  }

  // ----- Gaps and blocks -----

  /** Where the sweep stands before event `i`: the end of the event before it. */
  function Cursor(s: seq<Event>, open: int, i: nat): int
    requires i <= |s|
  {
    if i == 0 then open else s[i-1].end
  }

  /** Where gap `i` ends. */
  function GapEnd(s: seq<Event>, close: int, i: nat): int
    requires i <= |s|
  {
    if i < |s| then s[i].start else close
  }

  /** Whether a block is suggested before event `i`, or, for i = |s|, until the end of the day. */
  predicate Emits(s: seq<Event>, open: int, close: int, i: nat)
    requires i <= |s|
  {
    if i < |s| then s[i].start - Cursor(s, open, i) >= HALF_HOUR else Cursor(s, open, i) < close
  }

  /** The gaps before the first `n` events that become blocks, in order. */
  function Gaps(s: seq<Event>, open: int, close: int, n: nat): (gaps: seq<nat>)
    requires n <= |s| + 1
    ensures forall k :: 0 <= k < |gaps| ==> gaps[k] < n
  {
    if n == 0 then []
    else Gaps(s, open, close, n-1) + if Emits(s, open, close, n-1) then [n-1] else []
  }

  function Suggest(tasks: seq<Task>, k: nat): (Option<Id>, string) {
    if k < |tasks| then (Some(tasks[k].id), "Deep work: " + tasks[k].title) else (None, "Free block")
  }

  /** The k-th block, filling gap `i`. */
  function BlockAt(s: seq<Event>, tasks: seq<Task>, open: int, close: int, i: nat, k: nat): Block
    requires i <= |s|
  {
    var (taskId, caption) := Suggest(tasks, k);
    Block(Cursor(s, open, i), GapEnd(s, close, i), taskId, caption)
  }

  /** The blocks that fill the given gaps. */
  function BlocksIn(s: seq<Event>, tasks: seq<Task>, open: int, close: int, gaps: seq<nat>): (blocks: seq<Block>)
    requires forall k :: 0 <= k < |gaps| ==> gaps[k] <= |s|
    ensures |blocks| == |gaps|
  {
    if gaps == [] then []
    else
      var n := |gaps| - 1;
      BlocksIn(s, tasks, open, close, gaps[..n]) + [BlockAt(s, tasks, open, close, gaps[n], n)]
  }

  lemma {:induction false} BlocksInAt(s: seq<Event>, tasks: seq<Task>, open: int, close: int, gaps: seq<nat>, k: nat)
    requires k < |gaps| && forall k :: 0 <= k < |gaps| ==> gaps[k] <= |s|
    ensures BlocksIn(s, tasks, open, close, gaps)[k] == BlockAt(s, tasks, open, close, gaps[k], k)
  {
    if k < |gaps| - 1 {
      BlocksInAt(s, tasks, open, close, gaps[..|gaps|-1], k);
    }
  }

  /** Passing gap `i` adds its block, if it yields one. */
  lemma NextGap(s: seq<Event>, tasks: seq<Task>, open: int, close: int, i: nat)
    requires i <= |s|
    ensures var before := BlocksIn(s, tasks, open, close, Gaps(s, open, close, i));
            var block := BlockAt(s, tasks, open, close, i, |before|);
            BlocksIn(s, tasks, open, close, Gaps(s, open, close, i + 1))
              == if Emits(s, open, close, i) then before + [block] else before
  {
    var gaps := Gaps(s, open, close, i);
    assert (gaps + [i])[..|gaps|] == gaps;
    assert gaps + [] == gaps;
  }

  function FreeBlocks(events: seq<Event>, tasks: seq<Task>, open: int, close: int): seq<Block> {
    if events == [] then []
    else
      var s := Sorted(events);
      BlocksIn(s, tasks, open, close, Gaps(s, open, close, |s| + 1))
  }

  lemma {:induction false} GapsAreGaps(s: seq<Event>, open: int, close: int, n: nat)
    requires n <= |s| + 1
    ensures var gaps := Gaps(s, open, close, n);
            && (forall k :: 0 <= k < |gaps| ==> Emits(s, open, close, gaps[k]))
            && (forall k, l :: 0 <= k < l < |gaps| ==> gaps[k] < gaps[l])
            && (forall i :: 0 <= i < n && Emits(s, open, close, i) ==> i in gaps)
  {
    if n > 0 {
      GapsAreGaps(s, open, close, n-1);
    }
  }

  method FindFreeBlocks(events: seq<Event>, tasks: seq<Task>, open: int, close: int) returns (blocks: seq<Block>)
    ensures blocks == FreeBlocks(events, tasks, open, close)
  {
    if |events| == 0 {
      return [];
    }
    var sorted := Sorted(events);
    blocks := [];
    var cursor := open;
    for i := 0 to |sorted|
      invariant cursor == Cursor(sorted, open, i)
      invariant blocks == BlocksIn(sorted, tasks, open, close, Gaps(sorted, open, close, i))
    {
      var event := sorted[i];
      NextGap(sorted, tasks, open, close, i);
      if event.start > cursor {
        if event.start - cursor >= HALF_HOUR {
          var (taskId, caption) := Suggest(tasks, |blocks|);
          blocks := blocks + [Block(cursor, event.start, taskId, caption)];
        }
      }
      cursor := event.end;
    }
    NextGap(sorted, tasks, open, close, |sorted|);
    if cursor < close {
      var (taskId, caption) := Suggest(tasks, |blocks|);
      blocks := blocks + [Block(cursor, close, taskId, caption)];
    }
  }

  lemma GapsCompare(s: seq<Event>, open: int, close: int, k: nat, l: nat)
    requires k < |Gaps(s, open, close, |s| + 1)| && l < |Gaps(s, open, close, |s| + 1)|
    ensures Gaps(s, open, close, |s| + 1)[k] < Gaps(s, open, close, |s| + 1)[l] ==> k < l
  {
    GapsAreGaps(s, open, close, |s| + 1);
  }

  /** The gap that block `k` fills. */
  lemma BlockFillsGap(events: seq<Event>, tasks: seq<Task>, open: int, close: int, k: nat) returns (i: nat)
    requires k < |FreeBlocks(events, tasks, open, close)|
    ensures var s := Sorted(events);
            && i <= |s| && |s| > 0 && i == Gaps(s, open, close, |s| + 1)[k]
            && Emits(s, open, close, i)
            && FreeBlocks(events, tasks, open, close)[k] == BlockAt(s, tasks, open, close, i, k)
  {
    var s := Sorted(events);
    SortedIsSorted(events);
    GapsAreGaps(s, open, close, |s| + 1);
    i := Gaps(s, open, close, |s| + 1)[k];
    BlocksInAt(s, tasks, open, close, Gaps(s, open, close, |s| + 1), k);
  }

  lemma GapIndex(s: seq<Event>, open: int, close: int, i: nat) returns (k: nat)
    requires i <= |s| && Emits(s, open, close, i)
    ensures k < |Gaps(s, open, close, |s| + 1)| && Gaps(s, open, close, |s| + 1)[k] == i
  {
    GapsAreGaps(s, open, close, |s| + 1);
    k :| 0 <= k < |Gaps(s, open, close, |s| + 1)| && Gaps(s, open, close, |s| + 1)[k] == i;
  }

  /** The block of a gap that yields one. */
  lemma GapIsBlock(events: seq<Event>, tasks: seq<Task>, open: int, close: int, i: nat) returns (k: nat)
    requires events != [] && i <= |Sorted(events)| && Emits(Sorted(events), open, close, i)
    ensures k < |FreeBlocks(events, tasks, open, close)|
    ensures FreeBlocks(events, tasks, open, close)[k] == BlockAt(Sorted(events), tasks, open, close, i, k)
  {
    var s := Sorted(events);
    k := GapIndex(s, open, close, i);
    BlocksInAt(s, tasks, open, close, Gaps(s, open, close, |s| + 1), k);
  }

  /** Gaps in order make blocks in order. */
  lemma GapsAreBlocks(events: seq<Event>, tasks: seq<Task>, open: int, close: int, i: nat, j: nat)
      returns (k: nat, l: nat)
    requires events != [] && i < j <= |Sorted(events)|
    requires Emits(Sorted(events), open, close, i) && Emits(Sorted(events), open, close, j)
    ensures k < l < |FreeBlocks(events, tasks, open, close)|
    ensures FreeBlocks(events, tasks, open, close)[k] == BlockAt(Sorted(events), tasks, open, close, i, k)
    ensures FreeBlocks(events, tasks, open, close)[l] == BlockAt(Sorted(events), tasks, open, close, j, l)
  {
    var s := Sorted(events);
    k := GapIndex(s, open, close, i);
    l := GapIndex(s, open, close, j);
    GapsCompare(s, open, close, k, l);
    BlocksInAt(s, tasks, open, close, Gaps(s, open, close, |s| + 1), k);
    BlocksInAt(s, tasks, open, close, Gaps(s, open, close, |s| + 1), l);
  }

  // ----- What the blocks are -----

  /** Block `k` is offered the k-th ranked task, or none; it is not empty; and it lasts at least half an
      hour unless it is the last and runs to the end of the day. */
  lemma BlockShape(events: seq<Event>, tasks: seq<Task>, open: int, close: int, k: nat)
    requires k < |FreeBlocks(events, tasks, open, close)|
    ensures var blocks := FreeBlocks(events, tasks, open, close);
            && blocks[k].taskId == (if k < |tasks| then Some(tasks[k].id) else None)
            && blocks[k].caption == (if k < |tasks| then "Deep work: " + tasks[k].title else "Free block")
            && blocks[k].start < blocks[k].end
            && (blocks[k].end - blocks[k].start >= HALF_HOUR || (k == |blocks| - 1 && blocks[k].end == close))
  {
    var i := BlockFillsGap(events, tasks, open, close, k);
    GapShape(Sorted(events), tasks, open, close, i, k);
    if i == |Sorted(events)| {
      EndOfDayIsLast(Sorted(events), open, close, k);
    }
  }

  lemma GapShape(s: seq<Event>, tasks: seq<Task>, open: int, close: int, i: nat, k: nat)
    requires i <= |s| && Emits(s, open, close, i)
    ensures var b := BlockAt(s, tasks, open, close, i, k);
            && b.taskId == (if k < |tasks| then Some(tasks[k].id) else None)
            && b.caption == (if k < |tasks| then "Deep work: " + tasks[k].title else "Free block")
            && b.start < b.end
            && (if i < |s| then b.end - b.start >= HALF_HOUR else b.end == close)
  {
  }

  lemma EndOfDayIsLast(s: seq<Event>, open: int, close: int, k: nat)
    requires k < |Gaps(s, open, close, |s| + 1)| && Gaps(s, open, close, |s| + 1)[k] == |s|
    ensures k == |Gaps(s, open, close, |s| + 1)| - 1
  {
    GapsAreGaps(s, open, close, |s| + 1);
  }

  ghost predicate HasBlock(blocks: seq<Block>, start: int, end: int) {
    exists k :: 0 <= k < |blocks| && blocks[k].start == start && blocks[k].end == end
  }

  /** From the end of the event before `i`, or from the opening if `i` is the first, to its start it is half an
      hour or more. */
  predicate GapBefore(s: seq<Event>, open: int, i: nat, start: int, end: int)
    requires i < |s|
  {
    start == (if i == 0 then open else s[i-1].end) && end == s[i].start && end - start >= 30 * 60 * 1000
  }

  /** From the end of the last event to the close, however short. */
  predicate GapAfter(s: seq<Event>, close: int, start: int, end: int) {
    s != [] && start == s[|s|-1].end && end == close && start < close
  }

  lemma GapsAreBetween(s: seq<Event>, tasks: seq<Task>, open: int, close: int, i: nat, k: nat)
    requires i <= |s| && s != []
    ensures var b := BlockAt(s, tasks, open, close, i, k);
            Emits(s, open, close, i) <==> if i < |s| then GapBefore(s, open, i, b.start, b.end) else GapAfter(s, close, b.start, b.end)
  {
  }

  lemma GapHasBlock(events: seq<Event>, tasks: seq<Task>, open: int, close: int, i: nat, start: int, end: int)
    requires var s := Sorted(events);
             i <= |s| && s != [] && if i < |s| then GapBefore(s, open, i, start, end) else GapAfter(s, close, start, end)
    ensures HasBlock(FreeBlocks(events, tasks, open, close), start, end)
  {
    var k := GapIsBlock(events, tasks, open, close, i);
    assert FreeBlocks(events, tasks, open, close)[k].start == start;
  }

  /** Exactly which blocks there are: one for each such gap. */
  lemma BlocksAre(events: seq<Event>, tasks: seq<Task>, open: int, close: int, start: int, end: int)
    ensures HasBlock(FreeBlocks(events, tasks, open, close), start, end)
       <==> (exists i: nat :: i < |Sorted(events)| && GapBefore(Sorted(events), open, i, start, end))
            || GapAfter(Sorted(events), close, start, end)
  {
    var s, blocks := Sorted(events), FreeBlocks(events, tasks, open, close);
    if HasBlock(blocks, start, end) {
      var k :| 0 <= k < |blocks| && blocks[k].start == start && blocks[k].end == end;
      var i := BlockFillsGap(events, tasks, open, close, k);
      GapsAreBetween(s, tasks, open, close, i, k);
    }
    if i: nat :| i < |s| && GapBefore(s, open, i, start, end) {
      GapHasBlock(events, tasks, open, close, i, start, end);
    }
    if GapAfter(s, close, start, end) {
      GapHasBlock(events, tasks, open, close, |s|, start, end);
    }
  }

  /** Of two gaps that yield blocks, the later begins no earlier than the other ends. */
  predicate InOrder(s: seq<Event>, open: int, close: int, i: nat, j: nat)
    requires i < j <= |s|
  {
    Emits(s, open, close, i) && Emits(s, open, close, j) ==> s[i].start <= Cursor(s, open, j)
  }

  ghost predicate BlocksInOrder(blocks: seq<Block>) {
    forall k, l :: 0 <= k < l < |blocks| ==> blocks[k].end <= blocks[l].start
  }

  /** Blocks come in order and do not overlap exactly when no event just before a gap ends before the event
      after an earlier gap starts. */
  lemma BlocksAreOrderedIff(events: seq<Event>, tasks: seq<Task>, open: int, close: int)
    ensures BlocksInOrder(FreeBlocks(events, tasks, open, close))
       <==> events == [] || forall i: nat, j: nat :: i < j <= |Sorted(events)| ==> InOrder(Sorted(events), open, close, i, j)
  {
    var s, blocks := Sorted(events), FreeBlocks(events, tasks, open, close);
    if events != [] && BlocksInOrder(blocks) {
      forall i: nat, j: nat | i < j <= |s| ensures InOrder(s, open, close, i, j) {
        if Emits(s, open, close, i) && Emits(s, open, close, j) {
          var k, l := GapsAreBlocks(events, tasks, open, close, i, j);
          assert blocks[k].end <= blocks[l].start;
        }
      }
    }
    if events != [] && forall i: nat, j: nat :: i < j <= |s| ==> InOrder(s, open, close, i, j) {
      forall k, l | 0 <= k < l < |blocks| ensures blocks[k].end <= blocks[l].start {
        BlocksFillGaps(events, tasks, open, close, k, l);
      }
    }
  }

  lemma BlocksFillGaps(events: seq<Event>, tasks: seq<Task>, open: int, close: int, k: nat, l: nat)
    requires k < l < |FreeBlocks(events, tasks, open, close)|
    requires forall i: nat, j: nat :: i < j <= |Sorted(events)| ==> InOrder(Sorted(events), open, close, i, j)
    ensures FreeBlocks(events, tasks, open, close)[k].end <= FreeBlocks(events, tasks, open, close)[l].start
  {
    var s := Sorted(events);
    var i := BlockFillsGap(events, tasks, open, close, k);
    var j := BlockFillsGap(events, tasks, open, close, l);
    GapsAreGaps(s, open, close, |s| + 1);
    assert InOrder(s, open, close, i, j);
  }

  /** In particular when no event ends before it starts. */
  lemma BlocksAreOrdered(events: seq<Event>, tasks: seq<Task>, open: int, close: int)
    requires forall e :: e in events ==> e.start <= e.end
    ensures BlocksInOrder(FreeBlocks(events, tasks, open, close))
  {
    SortedIsSorted(events);
    GapsAreInOrder(Sorted(events), open, close);
    BlocksAreOrderedIff(events, tasks, open, close);
  }

  lemma GapsAreInOrder(s: seq<Event>, open: int, close: int)
    requires ByStart(s) && forall e :: e in s ==> e.start <= e.end
    ensures forall i: nat, j: nat :: i < j <= |s| ==> InOrder(s, open, close, i, j)
  {
    forall i: nat, j: nat | i < j <= |s| ensures s[i].start <= Cursor(s, open, j) {
      assert s[j-1] in s;
    }
  }

  predicate Within(t: int, start: int, end: int) {
    start <= t < end
  }

  /** Some instant lies both in the interval and in the event. */
  ghost predicate Overlaps(start: int, end: int, e: Event) {
    exists t :: Within(t, start, end) && Within(t, e.start, e.end)
  }

  ghost predicate Apart(start: int, end: int, e: Event) {
    end <= e.start || e.end <= start
  }

  lemma OverlapsIff(start: int, end: int, e: Event)
    ensures Overlaps(start, end, e) <==> start < end && e.start < e.end && !Apart(start, end, e)
  {
    if start < end && e.start < e.end && !Apart(start, end, e) {
      var t := if start < e.start then e.start else start;
      assert Within(t, start, end) && Within(t, e.start, e.end);
    }
  }

  /** Every event before `i` is over by the end of the one just before `i`, or lasts no time at all, or
      starts only when gap `i` ends. */
  ghost predicate Settled(s: seq<Event>, open: int, close: int, i: nat)
    requires i <= |s|
  {
    forall j :: 0 <= j < i && s[j].start < s[j].end && s[j].start < GapEnd(s, close, i) ==>
      s[j].end <= Cursor(s, open, i)
  }

  lemma GapOverlaps(s: seq<Event>, open: int, close: int, i: nat, j: nat)
    requires ByStart(s) && i <= |s| && Emits(s, open, close, i) && j < |s|
    ensures Overlaps(Cursor(s, open, i), GapEnd(s, close, i), s[j])
       <==> j < i && s[j].start < s[j].end && s[j].start < GapEnd(s, close, i) && s[j].end > Cursor(s, open, i)
  {
    OverlapsIff(Cursor(s, open, i), GapEnd(s, close, i), s[j]);
  }

  lemma BlockIsFreeIff(events: seq<Event>, tasks: seq<Task>, open: int, close: int, i: nat, k: nat)
    requires i <= |Sorted(events)| && Emits(Sorted(events), open, close, i)
    ensures Settled(Sorted(events), open, close, i)
       <==> var b := BlockAt(Sorted(events), tasks, open, close, i, k);
            forall e :: e in events ==> !Overlaps(b.start, b.end, e)
  {
    var s, b := Sorted(events), BlockAt(Sorted(events), tasks, open, close, i, k);
    SortedIsSorted(events);
    if Settled(s, open, close, i) {
      forall e | e in events ensures !Overlaps(b.start, b.end, e) {
        var j :| 0 <= j < |s| && s[j] == e;
        GapOverlaps(s, open, close, i, j);
      }
    } else {
      var j :| 0 <= j < i && s[j].start < s[j].end && s[j].start < GapEnd(s, close, i) && s[j].end > Cursor(s, open, i);
      GapOverlaps(s, open, close, i, j);
      assert s[j] in events;
    }
  }

  /** No suggested block overlaps an event exactly when, at every gap that yields one, no earlier event runs
      on past the event just before the gap. */
  lemma BlocksAreFreeIff(events: seq<Event>, tasks: seq<Task>, open: int, close: int)
    ensures (forall b, e :: b in FreeBlocks(events, tasks, open, close) && e in events ==> !Overlaps(b.start, b.end, e))
       <==> events == [] ||
            forall i :: 0 <= i <= |Sorted(events)| && Emits(Sorted(events), open, close, i) ==>
              Settled(Sorted(events), open, close, i)
  {
    var s, blocks := Sorted(events), FreeBlocks(events, tasks, open, close);
    if forall b, e :: b in blocks && e in events ==> !Overlaps(b.start, b.end, e) {
      forall i | events != [] && 0 <= i <= |s| && Emits(s, open, close, i) ensures Settled(s, open, close, i) {
        var k := GapIsBlock(events, tasks, open, close, i);
        assert blocks[k] in blocks;
        BlockIsFreeIff(events, tasks, open, close, i, k);
      }
    }
    if events != [] && forall i :: 0 <= i <= |s| && Emits(s, open, close, i) ==> Settled(s, open, close, i) {
      forall b, e | b in blocks && e in events ensures !Overlaps(b.start, b.end, e) {
        var k :| 0 <= k < |blocks| && blocks[k] == b;
        var i := BlockFillsGap(events, tasks, open, close, k);
        BlockIsFreeIff(events, tasks, open, close, i, k);
      }
    }
  }

  /** In particular the blocks are free when events end in the order in which they start. */
  lemma BlocksAreFree(events: seq<Event>, tasks: seq<Task>, open: int, close: int, b: Block, e: Event)
    requires forall i, j :: 0 <= i < j < |Sorted(events)| ==> Sorted(events)[i].end <= Sorted(events)[j].end
    requires b in FreeBlocks(events, tasks, open, close) && e in events
    ensures !Overlaps(b.start, b.end, e)
  {
    forall i: nat | i <= |Sorted(events)| ensures Settled(Sorted(events), open, close, i) {
      NestingFreeIsSettled(Sorted(events), open, close, i);
    }
    BlocksAreFreeIff(events, tasks, open, close);
  }

  lemma NestingFreeIsSettled(s: seq<Event>, open: int, close: int, i: nat)
    requires i <= |s| && forall i, j :: 0 <= i < j < |s| ==> s[i].end <= s[j].end
    ensures Settled(s, open, close, i)
  {
  }

  /** Event `i` ends before the day opens, and no event starts within half an hour after its end, or at all
      while the day lasts. */
  predicate EarlyEnd(s: seq<Event>, open: int, close: int, i: nat)
    requires i < |s|
  {
    s[i].end < open && if i + 1 < |s| then s[i+1].start - s[i].end >= HALF_HOUR else s[i].end < close
  }

  /** Event `i` starts after the day closes, half an hour or more after the end of the event before it, or
      after the opening if it is the first. */
  predicate LateStart(s: seq<Event>, open: int, close: int, i: nat)
    requires i < |s|
  {
    s[i].start > close && s[i].start - (if i == 0 then open else s[i-1].end) >= HALF_HOUR
  }

  ghost predicate InWorkingHours(blocks: seq<Block>, open: int, close: int) {
    forall b :: b in blocks ==> open <= b.start && b.end <= close
  }

  lemma GapIsInHoursIff(s: seq<Event>, open: int, close: int, i: nat)
    requires i <= |s| && Emits(s, open, close, i)
    ensures Cursor(s, open, i) < open <==> i > 0 && EarlyEnd(s, open, close, i-1)
    ensures GapEnd(s, close, i) > close <==> i < |s| && LateStart(s, open, close, i)
  {
  }

  lemma OutOfHoursEmits(s: seq<Event>, open: int, close: int, i: nat)
    requires i < |s|
    ensures EarlyEnd(s, open, close, i) ==> Emits(s, open, close, i + 1)
    ensures LateStart(s, open, close, i) ==> Emits(s, open, close, i)
  {
  }

  lemma EventOutOfHours(events: seq<Event>, tasks: seq<Task>, open: int, close: int, i: nat)
    requires i < |Sorted(events)| && (EarlyEnd(Sorted(events), open, close, i) || LateStart(Sorted(events), open, close, i))
    ensures !InWorkingHours(FreeBlocks(events, tasks, open, close), open, close)
  {
    var s, blocks := Sorted(events), FreeBlocks(events, tasks, open, close);
    OutOfHoursEmits(s, open, close, i);
    var gap := if EarlyEnd(s, open, close, i) then i + 1 else i;
    GapIsInHoursIff(s, open, close, gap);
    var k := GapIsBlock(events, tasks, open, close, gap);
    assert blocks[k] in blocks;
  }

  ghost predicate EventsKeepHours(s: seq<Event>, open: int, close: int) {
    forall i: nat :: i < |s| ==> !EarlyEnd(s, open, close, i) && !LateStart(s, open, close, i)
  }

  /** The blocks lie within the working day exactly when no event ends early or starts late in this sense. */
  lemma BlocksAreInWorkingHoursIff(events: seq<Event>, tasks: seq<Task>, open: int, close: int)
    ensures InWorkingHours(FreeBlocks(events, tasks, open, close), open, close)
       <==> EventsKeepHours(Sorted(events), open, close)
  {
    var s, blocks := Sorted(events), FreeBlocks(events, tasks, open, close);
    if !EventsKeepHours(s, open, close) {
      var i: nat :| i < |s| && (EarlyEnd(s, open, close, i) || LateStart(s, open, close, i));
      EventOutOfHours(events, tasks, open, close, i);
    } else {
      forall b | b in blocks ensures open <= b.start && b.end <= close {
        var k :| 0 <= k < |blocks| && blocks[k] == b;
        var i := BlockFillsGap(events, tasks, open, close, k);
        GapIsInHoursIff(s, open, close, i);
      }
    }
  }

  /** In particular when no event ends before the day opens or starts after it closes. */
  lemma BlocksAreInWorkingHours(events: seq<Event>, tasks: seq<Task>, open: int, close: int, b: Block)
    requires forall e :: e in events ==> open <= e.end && e.start <= close
    requires b in FreeBlocks(events, tasks, open, close)
    ensures open <= b.start && b.end <= close
  {
    var s := Sorted(events);
    SortedIsSorted(events);
    forall i: nat | i < |s| ensures !EarlyEnd(s, open, close, i) && !LateStart(s, open, close, i) {
      assert s[i] in s;
    }
    BlocksAreInWorkingHoursIff(events, tasks, open, close);
  }

  /** Two meetings around the working day, one early and one late, make the first block begin before the
      opening and end after the close. */
  lemma EarlyAndLateEvents(open: int)
    ensures var early, late := Event(open - 4 * HALF_HOUR, open - 2 * HALF_HOUR), Event(open + 20 * HALF_HOUR, open + 22 * HALF_HOUR);
            var blocks := FreeBlocks([early, late], [], open, open + 16 * HALF_HOUR);
            && |blocks| == 1 && blocks[0].start == early.end < open && blocks[0].end == late.start > open + 16 * HALF_HOUR
  {
    var early, late := Event(open - 4 * HALF_HOUR, open - 2 * HALF_HOUR), Event(open + 20 * HALF_HOUR, open + 22 * HALF_HOUR);
    var meetings, close := [early, late], open + 16 * HALF_HOUR;
    assert meetings[..1] == [early] && [early][..0] == [];
    assert Sorted([early]) == [early];
    assert Sorted(meetings) == meetings;
    assert Gaps(meetings, open, close, 0) == [];
    assert Gaps(meetings, open, close, 1) == [];
    assert Gaps(meetings, open, close, 2) == [1];
    assert Gaps(meetings, open, close, 3) == [1];
  }

  /** An event inside a longer one pulls the cursor back, and the time after it is taken for free. */
  lemma NestedEventIsOverlooked(open: int)
    ensures var meetings := [Event(open, open + 8 * HALF_HOUR), Event(open + HALF_HOUR, open + 2 * HALF_HOUR)];
            && |FreeBlocks(meetings, [], open, open + 16 * HALF_HOUR)| == 1
            && Overlaps(FreeBlocks(meetings, [], open, open + 16 * HALF_HOUR)[0].start,
                        FreeBlocks(meetings, [], open, open + 16 * HALF_HOUR)[0].end, meetings[0])
  {
    var long, short := Event(open, open + 8 * HALF_HOUR), Event(open + HALF_HOUR, open + 2 * HALF_HOUR);
    var meetings, close := [long, short], open + 16 * HALF_HOUR;
    assert meetings[..1] == [long] && [long][..0] == [];
    assert Sorted([long]) == [long];
    assert Sorted(meetings) == [long, short];
    assert Gaps(meetings, open, close, 0) == [];
    assert Gaps(meetings, open, close, 1) == [];
    assert Gaps(meetings, open, close, 2) == [];
    assert Gaps(meetings, open, close, 3) == [2];
    OverlapsIff(short.end, close, long);
  }

  /** A day without events is free, and gets no block. */
  lemma EmptyDayGetsNoBlock(tasks: seq<Task>, open: int)
    ensures FreeInterval([], open, open + 16 * HALF_HOUR, open, open + 16 * HALF_HOUR)
    ensures FreeBlocks([], tasks, open, open + 16 * HALF_HOUR) == []
  {
  }

  /** The interval lies inside the working day, lasts half an hour or more, and every event is over before it
      or starts after it. */
  ghost predicate FreeInterval(events: seq<Event>, open: int, close: int, start: int, end: int) {
    && open <= start && end <= close && end - start >= HALF_HOUR
    && forall e :: e in events ==> Apart(start, end, e)
  }

  ghost predicate Covered(events: seq<Event>, tasks: seq<Task>, open: int, close: int, start: int, end: int) {
    exists b :: b in FreeBlocks(events, tasks, open, close) && b.start <= start && end <= b.end
  }

  lemma FreeIntervalIsCovered(events: seq<Event>, tasks: seq<Task>, open: int, close: int, start: int, end: int)
    requires events != [] && FreeInterval(events, open, close, start, end)
    ensures Covered(events, tasks, open, close, start, end)
  {
    var s := Sorted(events);
    SortedIsSorted(events);
    var i: nat := 0;
    while i < |s| && s[i].start < end
      invariant i <= |s|
      invariant i > 0 ==> s[i-1].start < end
    {
      i := i + 1;
    }
    if i > 0 {
      assert s[i-1] in s;
    }
    var k := GapIsBlock(events, tasks, open, close, i);
    assert FreeBlocks(events, tasks, open, close)[k] in FreeBlocks(events, tasks, open, close);
  }

  /** Nothing is missed, overlapping events or not: every free interval lies within one block, except on a
      day without events, for which nothing is suggested though all of it is free. */
  lemma FreeTimeIsCoveredIff(events: seq<Event>, tasks: seq<Task>, open: int, close: int)
    ensures (forall start, end :: FreeInterval(events, open, close, start, end) ==>
               Covered(events, tasks, open, close, start, end))
       <==> events != [] || close - open < HALF_HOUR
  {
    if events != [] {
      forall start, end | FreeInterval(events, open, close, start, end)
        ensures Covered(events, tasks, open, close, start, end)
      {
        FreeIntervalIsCovered(events, tasks, open, close, start, end);
      }
    } else if close - open >= HALF_HOUR {
      assert FreeInterval(events, open, close, open, close);
      assert !Covered(events, tasks, open, close, open, close);
    }
  }
}
