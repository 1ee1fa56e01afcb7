/** Task retention: archive completed tasks, purge archived and stale ones
    (plugins/task-intelligence/src/discovery/retention.ts). Times are in milliseconds. */
module Retention {
  import opened Common

  type Id(==, !new)

  const DAY := 24 * 3600 * 1000
  const ACTIVE_RETENTION := 90 * DAY
  const ARCHIVE_AFTER := 30 * DAY
  const PURGE_AFTER_ARCHIVE := 90 * DAY

  datatype Status = Discovered | Active | Completed | Archived

  datatype Record = Record(status: Status, discoveredAt: int, completedAt: Option<int>,
                           archivedAt: Option<int>, purgeAt: Option<int>)

  type Records = map<Id, Record>

  /** One pass: the clock when it begins, and the later clock reading stamped on each task it archives. */
  datatype Pass = Pass(now: int, stamp: Id -> int)

  ghost predicate ClockMovesOn(p: Pass) {
    forall id :: p.now <= p.stamp(id)
  }

  // ----- What a pass does to one record -----

  predicate DueForArchive(r: Record, now: int) {
    r.status == Completed && r.completedAt.Some? && now - r.completedAt.value >= ARCHIVE_AFTER
  }

  function Archive(r: Record, now: int, stamp: int): Record {
    r.(status := Archived, archivedAt := Some(stamp), purgeAt := Some(now + PURGE_AFTER_ARCHIVE))
  }

  function AfterArchiving(r: Record, now: int, stamp: int): Record {
    if DueForArchive(r, now) then Archive(r, now, stamp) else r
  }

  predicate DueForPurge(r: Record, now: int) {
    r.status == Archived && r.archivedAt.Some? && now - r.archivedAt.value >= PURGE_AFTER_ARCHIVE
  }

  predicate Stale(r: Record, now: int) {
    (r.status == Active || r.status == Discovered) && now - r.discoveredAt >= ACTIVE_RETENTION
  }

  // ----- What a pass does to the store -----

  function ArchivedAll(m: Records, p: Pass): Records {
    map id | id in m :: AfterArchiving(m[id], p.now, p.stamp(id))
  }

  /** The three clean-ups of a pass, after archiving. */
  datatype Purge = FromArchive | StaleActive | StaleDiscovered
  {
    function Status(): Status {
      match this
      case FromArchive => Archived
      case StaleActive => Active
      case StaleDiscovered => Discovered
    }

    predicate Due(r: Record, now: int) {
      r.status == Status() && if FromArchive? then DueForPurge(r, now) else Stale(r, now)
    }
  }

  function ArchivableIds(m: Records, now: int): set<Id> {
    set id | id in m && DueForArchive(m[id], now)
  }

  function DueIds(m: Records, purge: Purge, now: int): set<Id> {
    set id | id in m && purge.Due(m[id], now)
  }

  function OpenDueIds(m: Records, now: int): set<Id> {
    DueIds(m, StaleActive, now) + DueIds(m, StaleDiscovered, now)
  }

  function Purged(m: Records, purge: Purge, now: int): Records {
    m - DueIds(m, purge, now)
  }

  function Swept(m: Records, p: Pass): Records {
    Purged(Purged(Purged(ArchivedAll(m, p), FromArchive, p.now), StaleActive, p.now), StaleDiscovered, p.now)
  }

  // ----- The store and the service -----

  class TaskStore {
    var records: Records

    constructor (records: Records)
      ensures this.records == records
    {
      this.records := records;
    }

    /** The ids with a status, in some order. */
    method FindByStatus(status: Status) returns (found: seq<Id>)
      ensures forall id :: id in found <==> id in records && records[id].status == status
      ensures Distinct(found)
    {
      var left := set id | id in records && records[id].status == status;
      found := [];
      while left != {}
        invariant forall id :: id in found ==> id !in left
        invariant forall id :: id in found || id in left <==> id in records && records[id].status == status
        invariant Distinct(found)
        decreases left
      {
        var id :| id in left;
        left := left - {id};
        found := found + [id];
      }
    }

    method UpdateStatus(id: Id, record: Record)
      requires id in records
      modifies this
      ensures records == old(records)[id := record]
    {
      records := records[id := record];
    }

    method Delete(id: Id)
      modifies this
      ensures records == old(records) - {id}
    {
      records := records - {id};
    }
  }

  datatype Report = Report(archived: nat, purgedFromArchive: nat, purgedStale: nat)

  class TaskRetentionService {
    const store: TaskStore
    var running: bool

    constructor (store: TaskStore)
      ensures this.store == store && !running
    {
      this.store := store;
      running := false;
    }

    /** Starting sweeps at once, unless the service is already running. */
    method Start(pass: Pass)
      modifies this, store
      ensures running
      ensures store.records == if old(running) then old(store.records) else Swept(old(store.records), pass)
    {
      if running {
        return;
      }
      running := true;
      var _ := ProcessRetention(pass);
    }

    method Stop()
      modifies this
      ensures !running
    {
      running := false;
    }

    method ProcessRetention(pass: Pass) returns (report: Report)
      modifies store
      ensures store.records == Swept(old(store.records), pass)
      ensures report.archived == |ArchivableIds(old(store.records), pass.now)|
      ensures report.purgedFromArchive == |DueIds(ArchivedAll(old(store.records), pass), FromArchive, pass.now)|
      ensures report.purgedStale == |OpenDueIds(old(store.records), pass.now)|
      ensures |old(store.records)| == |store.records| + report.purgedFromArchive + report.purgedStale
    {
      var archived := ArchiveCompleted(pass);
      assert store.records.Keys == old(store.records).Keys;
      assert |store.records| == |store.records.Keys| == |old(store.records)|;
      var purgedFromArchive := PurgeDue(FromArchive, pass.now);
      var purgedActive := PurgeDue(StaleActive, pass.now);
      var purgedDiscovered := PurgeDue(StaleDiscovered, pass.now);
      report := Report(archived, purgedFromArchive, purgedActive + purgedDiscovered);
      OpenPurgesAdd(old(store.records), pass);
    }

    method ArchiveCompleted(pass: Pass) returns (archived: nat)
      modifies store
      ensures store.records == ArchivedAll(old(store.records), pass)
      ensures archived == |ArchivableIds(old(store.records), pass.now)|
    {
      var found := store.FindByStatus(Completed);
      ghost var before, seen := store.records, {};
      archived := 0;
      for i := 0 to |found|
        invariant SeenUpTo(found, seen, i)
        invariant archived == |ArchivableIds(before, pass.now) * seen|
        invariant store.records == ArchivedAmong(before, seen, pass)
      {
        var id := found[i];
        assert id in found;
        SeenGrows(found, seen, i);
        ArchivedAmongGrows(before, seen, pass, id);
        seen := seen + {id};
        var moved := ArchiveIfDue(id, pass);
        if moved {
          archived := archived + 1;
        }
      }
      AllArchived(before, found, seen, pass);
    }

    method ArchiveIfDue(id: Id, pass: Pass) returns (moved: bool)
      requires id in store.records && store.records[id].status == Completed
      modifies store
      ensures store.records == old(store.records)[id := AfterArchiving(old(store.records)[id], pass.now, pass.stamp(id))]
      ensures moved <==> DueForArchive(old(store.records)[id], pass.now)
    {
      var r := store.records[id];
      if r.completedAt.None? {
        return false;
      }
      if pass.now - r.completedAt.value >= ARCHIVE_AFTER {
        store.UpdateStatus(id, r.(status := Archived, archivedAt := Some(pass.stamp(id)),
                                  purgeAt := Some(pass.now + PURGE_AFTER_ARCHIVE)));
        return true;
      }
      return false;
    }

    /** Delete the records of one clean-up that are due. */
    method PurgeDue(purge: Purge, now: int) returns (purged: nat)
      modifies store
      ensures store.records == Purged(old(store.records), purge, now)
      ensures purged == |DueIds(old(store.records), purge, now)|
      ensures |old(store.records)| == |store.records| + purged
    {
      var found := store.FindByStatus(purge.Status());
      ghost var before, seen := store.records, {};
      purged := 0;
      for i := 0 to |found|
        invariant SeenUpTo(found, seen, i)
        invariant purged == |DueIds(before, purge, now) * seen|
        invariant store.records == before - DueIds(before, purge, now) * seen
      {
        var id := found[i];
        assert id in found;
        SeenGrows(found, seen, i);
        DueAmongGrows(before, seen, purge, now, id);
        seen := seen + {id};
        if purge.Due(store.records[id], now) {
          store.Delete(id);
          purged := purged + 1;
        }
      }
      AllPurged(before, purge, now, found, seen);
    }
  }

  /** The clean-ups of open records see the same records before and after the other steps of a pass. */
  lemma OpenPurgesAdd(m: Records, p: Pass)
    ensures var afterArchive := Purged(ArchivedAll(m, p), FromArchive, p.now);
            && DueIds(afterArchive, StaleActive, p.now) == DueIds(m, StaleActive, p.now)
            && DueIds(Purged(afterArchive, StaleActive, p.now), StaleDiscovered, p.now) == DueIds(m, StaleDiscovered, p.now)
            && |OpenDueIds(m, p.now)| == |DueIds(m, StaleActive, p.now)| + |DueIds(m, StaleDiscovered, p.now)|
  {
    assert DueIds(m, StaleActive, p.now) !! DueIds(m, StaleDiscovered, p.now);
  }

  ghost predicate Distinct(s: seq<Id>) {
    forall i, j :: 0 <= i < j < |s| ==> s[i] != s[j]
  }

  /** Of the ids found, exactly the first `n` have been looked at. */
  ghost predicate SeenUpTo(found: seq<Id>, seen: set<Id>, n: nat) {
    forall j :: 0 <= j < |found| ==> (found[j] in seen <==> j < n)
  }

  lemma SeenGrows(found: seq<Id>, seen: set<Id>, n: nat)
    requires Distinct(found) && n < |found| && SeenUpTo(found, seen, n)
    ensures found[n] !in seen && SeenUpTo(found, seen + {found[n]}, n + 1)
  {
  }

  lemma AllSeen(m: Records, status: Status, found: seq<Id>, seen: set<Id>)
    requires forall id :: id in found <==> id in m && m[id].status == status
    requires SeenUpTo(found, seen, |found|)
    ensures forall id :: id in m && m[id].status == status ==> id in seen
  {
    forall id | id in m && m[id].status == status ensures id in seen {
      assert id in found;
    }
  }

  lemma AllArchived(m: Records, found: seq<Id>, seen: set<Id>, p: Pass)
    requires forall id :: id in found <==> id in m && m[id].status == Completed
    requires SeenUpTo(found, seen, |found|)
    ensures ArchivedAmong(m, seen, p) == ArchivedAll(m, p)
    ensures ArchivableIds(m, p.now) * seen == ArchivableIds(m, p.now)
  {
    AllSeen(m, Completed, found, seen);
  }

  lemma AllPurged(m: Records, purge: Purge, now: int, found: seq<Id>, seen: set<Id>)
    requires forall id :: id in found <==> id in m && m[id].status == purge.Status()
    requires SeenUpTo(found, seen, |found|)
    ensures DueIds(m, purge, now) * seen == DueIds(m, purge, now)
    ensures |m| == |Purged(m, purge, now)| + |DueIds(m, purge, now)|
  {
    AllSeen(m, purge.Status(), found, seen);
    assert Purged(m, purge, now).Keys == m.Keys - DueIds(m, purge, now);
  }

  lemma DueAmongGrows(m: Records, seen: set<Id>, purge: Purge, now: int, id: Id)
    requires id in m && id !in seen
    ensures id !in DueIds(m, purge, now) * seen
    ensures DueIds(m, purge, now) * (seen + {id})
         == DueIds(m, purge, now) * seen + if purge.Due(m[id], now) then {id} else {}
    ensures purge.Due(m[id], now) ==>
              m - DueIds(m, purge, now) * (seen + {id}) == m - DueIds(m, purge, now) * seen - {id}
  {
  }

  /** The store when only the ids in `seen` have been looked at. */
  ghost function ArchivedAmong(m: Records, seen: set<Id>, p: Pass): Records {
    map id | id in m :: if id in seen then AfterArchiving(m[id], p.now, p.stamp(id)) else m[id]
  }

  lemma ArchivedAmongGrows(m: Records, seen: set<Id>, p: Pass, id: Id)
    requires id in m && id !in seen
    ensures ArchivedAmong(m, seen, p)[id] == m[id]
    ensures ArchivedAmong(m, seen + {id}, p) == ArchivedAmong(m, seen, p)[id := AfterArchiving(m[id], p.now, p.stamp(id))]
    ensures id !in ArchivableIds(m, p.now) * seen
    ensures ArchivableIds(m, p.now) * (seen + {id})
         == ArchivableIds(m, p.now) * seen + if DueForArchive(m[id], p.now) then {id} else {}
  {
  }

  // ----- One pass -----

  /** The record was completed 30 days ago or more. */
  predicate CompletedLongAgo(r: Record, now: int) {
    r.status == Completed && r.completedAt.Some? && now >= r.completedAt.value + 30 * DAY
  }

  /** The record was archived, or, if it is open, discovered 90 days ago or more. */
  predicate PastRetention(r: Record, now: int) {
    match r.status
    case Archived => r.archivedAt.Some? && now >= r.archivedAt.value + 90 * DAY
    case Active => now >= r.discoveredAt + 90 * DAY
    case Discovered => now >= r.discoveredAt + 90 * DAY
    case Completed => false
  }

  /** A pass acts on each task by itself: one past its retention is deleted, one completed long ago is archived,
      to be purged 90 days after the pass, and any other stays as it is. */
  lemma SweptOne(m: Records, p: Pass, id: Id)
    requires ClockMovesOn(p)
    ensures id in Swept(m, p) <==> id in m && !PastRetention(m[id], p.now)
    ensures id in Swept(m, p) ==>
              var r := m[id];
              Swept(m, p)[id]
                == if CompletedLongAgo(r, p.now)
                   then Record(Archived, r.discoveredAt, r.completedAt, Some(p.stamp(id)), Some(p.now + 90 * DAY))
                   else r
    ensures id in Swept(m, p) ==> Swept(m, p)[id] == AfterArchiving(m[id], p.now, p.stamp(id))
  {
  }

  /** The counters a pass reports: the records it archives, and those it deletes from the archive and among the
      open ones. */
  lemma PassCounts(m: Records, p: Pass)
    requires ClockMovesOn(p)
    ensures ArchivableIds(m, p.now) == set id | id in m && CompletedLongAgo(m[id], p.now)
    ensures DueIds(ArchivedAll(m, p), FromArchive, p.now)
         == set id | id in m && m[id].status == Archived && PastRetention(m[id], p.now)
    ensures OpenDueIds(m, p.now)
         == set id | id in m && (m[id].status == Active || m[id].status == Discovered) && PastRetention(m[id], p.now)
  {
  }

  /** A second pass at the same time changes nothing. */
  lemma SweepIsIdempotent(m: Records, p: Pass, q: Pass)
    requires ClockMovesOn(p) && ClockMovesOn(q) && p.now == q.now
    ensures Swept(Swept(m, p), q) == Swept(m, p)
  {
    forall id ensures id in Swept(Swept(m, p), q) <==> id in Swept(m, p)
      ensures id in Swept(m, p) ==> Swept(Swept(m, p), q)[id] == Swept(m, p)[id]
    {
      SweptOne(m, p, id);
      SweptOne(Swept(m, p), q, id);
    }
  }

  // ----- Runs -----

  function Run(m: Records, passes: seq<Pass>): Records
    decreases |passes|
  {
    if passes == [] then m else Run(Swept(m, passes[0]), passes[1..])
  }

  ghost predicate Clocked(passes: seq<Pass>) {
    forall i :: 0 <= i < |passes| ==> ClockMovesOn(passes[i])
  }

  /** A task completed at `t` that is still in the store: waiting to be archived, or archived no earlier
      than 30 days after `t`, with a recorded purge date between 120 days after `t` and 90 days after it was
      archived. */
  ghost predicate OnCourse(r: Record, t: int) {
    && r.completedAt == Some(t)
    && match r.status
       case Completed => true
       case Archived =>
         && r.archivedAt.Some? && r.archivedAt.value >= t + ARCHIVE_AFTER
         && r.purgeAt.Some? && t + 120 * DAY <= r.purgeAt.value <= r.archivedAt.value + PURGE_AFTER_ARCHIVE
       case _ => false
  }

  lemma SweepKeepsCourse(m: Records, p: Pass, id: Id, t: int)
    requires ClockMovesOn(p) && id in m && OnCourse(m[id], t)
    ensures id in Swept(m, p) ==> OnCourse(Swept(m, p)[id], t)
    ensures id !in Swept(m, p) ==>
              && m[id].status == Archived
              && p.now >= t + ARCHIVE_AFTER + PURGE_AFTER_ARCHIVE
              && p.now >= m[id].purgeAt.value
  {
    SweptOne(m, p, id);
  }

  /** Never early: over any run of passes, the pass that deletes a task completed at `t` begins at or
      after t + 120 days and at or after its own recorded purge date. */
  lemma {:induction false} NeverPurgedEarly(m: Records, passes: seq<Pass>, id: Id, t: int) returns (k: nat)
    requires Clocked(passes) && id in m && OnCourse(m[id], t) && id !in Run(m, passes)
    ensures k < |passes| && id in Run(m, passes[..k]) && id !in Run(m, passes[..k+1])
    ensures OnCourse(Run(m, passes[..k])[id], t)
    ensures passes[k].now >= t + 120 * DAY
    ensures Run(m, passes[..k])[id].status == Archived && passes[k].now >= Run(m, passes[..k])[id].purgeAt.value
    decreases |passes|
  {
    var next := Swept(m, passes[0]);
    SweepKeepsCourse(m, passes[0], id, t);
    if id in next {
      var j := NeverPurgedEarly(next, passes[1..], id, t);
      k := j + 1;
      assert passes[..k][1..] == passes[1..][..j];
      assert passes[..k+1][1..] == passes[1..][..j+1];
    } else {
      k := 0;
      assert passes[..1][1..] == [];
    }
  }

  /** A task that is never completed stays, unchanged, exactly until a pass begins 90 days or more after
      it was discovered. */
  lemma {:induction false} OpenTaskLives(m: Records, passes: seq<Pass>, id: Id)
    requires Clocked(passes) && id in m && (m[id].status == Active || m[id].status == Discovered)
    ensures id in Run(m, passes) <==> forall i :: 0 <= i < |passes| ==> passes[i].now < m[id].discoveredAt + ACTIVE_RETENTION
    ensures id in Run(m, passes) ==> Run(m, passes)[id] == m[id]
    decreases |passes|
  {
    if passes != [] {
      var next, rest := Swept(m, passes[0]), passes[1..];
      SweptOne(m, passes[0], id);
      assert forall i :: 0 < i < |passes| ==> passes[i] == rest[i-1];
      if id in next {
        OpenTaskLives(next, rest, id);
        assert forall i :: 0 <= i < |rest| ==> rest[i] == passes[i+1];
      } else {
        GoneForGood(next, rest, id);
      }
    }
  }

  lemma {:induction false} GoneForGood(m: Records, passes: seq<Pass>, id: Id)
    requires id !in m
    ensures id !in Run(m, passes)
    decreases |passes|
  {
    if passes != [] {
      GoneForGood(Swept(m, passes[0]), passes[1..], id);
    }
  }

  /** Passes begin in order, at most `gap` apart, and each stamps within `length` of its beginning. */
  ghost predicate Regular(passes: seq<Pass>, gap: nat, length: nat) {
    && Clocked(passes)
    && (forall i {:trigger passes[i].stamp} :: 0 <= i < |passes| ==> forall id :: passes[i].stamp(id) <= passes[i].now + length)
    && (forall i, j :: 0 <= i < j < |passes| && j == i + 1 ==> passes[i].now <= passes[j].now <= passes[i].now + gap)
  }

  /** A task that is not late when a pass begins at `now`. */
  ghost predicate OnTime(r: Record, t: int, now: int, gap: nat, length: nat) {
    && OnCourse(r, t)
    && (r.status == Completed ==> now <= t + ARCHIVE_AFTER + gap)
    && (r.status == Archived ==> r.archivedAt.value <= t + ARCHIVE_AFTER + gap + length)
  }

  lemma NextIsOnTime(r: Record, p: Pass, t: int, stamp: int, later: int, gap: nat, length: nat)
    requires OnTime(r, t, p.now, gap, length)
    requires p.now <= stamp <= p.now + length && p.now <= later <= p.now + gap
    ensures OnTime(AfterArchiving(r, p.now, stamp), t, later, gap, length)
  {
  }

  /** Never late: when passes are at most `gap` apart, none stamps later than `length` after it begins,
      and the first is in time, a task completed at `t` is gone after any pass that begins at or after
      t + 120 days + gap + length. */
  lemma {:induction false} NeverPurgedLate(m: Records, passes: seq<Pass>, id: Id, t: int, gap: nat, length: nat)
    requires Regular(passes, gap, length) && passes != []
    requires id in m ==> OnTime(m[id], t, passes[0].now, gap, length)
    requires passes[|passes|-1].now >= t + 120 * DAY + gap + length
    ensures id !in Run(m, passes)
    decreases |passes|
  {
    var p, rest, next := passes[0], passes[1..], Swept(m, passes[0]);
    assert p.stamp == passes[0].stamp;
    SweptOne(m, p, id);
    if rest != [] {
      assert forall i {:trigger rest[i]} :: 0 <= i < |rest| ==> rest[i] == passes[i+1];
      if id in next {
        NextIsOnTime(m[id], p, t, p.stamp(id), rest[0].now, gap, length);
      }
      NeverPurgedLate(next, rest, id, t, gap, length);
    }
  }

  /** So a completed task is gone after a pass that begins before t + 120 days + 2 gap + length. */
  lemma PurgedWithinTwoGaps(m: Records, passes: seq<Pass>, id: Id, t: int, gap: nat, length: nat) returns (k: nat)
    requires Regular(passes, gap, length) && passes != []
    requires id in m && m[id].status == Completed && OnTime(m[id], t, passes[0].now, gap, length)
    requires passes[|passes|-1].now >= t + 120 * DAY + gap + length
    ensures k < |passes| && passes[k].now < t + 120 * DAY + 2 * gap + length
    ensures id !in Run(m, passes[..k+1])
  {
    k := 0;
    while passes[k].now < t + 120 * DAY + gap + length
      invariant k < |passes|
      invariant k > 0 ==> passes[k-1].now < t + 120 * DAY + gap + length
      decreases |passes| - k
    {
      k := k + 1;
    }
    var some := passes[..k+1];
    assert forall i {:trigger some[i]} :: 0 <= i < |some| ==> some[i] == passes[i];
    NeverPurgedLate(m, some, id, t, gap, length);
    assert k > 0 ==> passes[k].now <= passes[k-1].now + gap;
  }
}
