/** Task correlation: a confidence from four signals, and greedy first-fit clustering by it
    (plugins/task-intelligence/src/correlation/correlator.ts). */
module Correlation {
  import opened Picking

  type Word(==, !new)
  type Ref(==, !new)
  type SourceSystem(==, !new)

  /** A discovered task, with the words of its title and the references found in its text. */
  datatype Task = Task(system: SourceSystem, sourceId: Ref, titleWords: set<Word>, textRefs: set<Ref>, discoveredAt: int)

  const AUTO_MERGE := 0.8
  const POSSIBLY_RELATED := 0.5
  const HOUR := 3600 * 1000
  const FULL_DAY := 24 * HOUR

  // ----- Confidence -----

  function JaccardSimilarity(a: set<Word>, b: set<Word>): real {
    if a == {} && b == {} then 0.0
    else
      UnionIsNonEmpty(a, b);
      |a * b| as real / |a + b| as real
  }

  lemma UnionIsNonEmpty(a: set<Word>, b: set<Word>)
    ensures a != {} || b != {} ==> |a + b| > 0
    ensures |a * b| <= |a + b|
  {
    assert a + b == (a * b) + ((a - b) + (b - a));
    if a + b == {} {
      assert a == {} && b == {};
    }
  }

  function EntityReferences(t: Task): set<Ref> {
    t.textRefs + {t.sourceId}
  }

  predicate ShareReference(a: Task, b: Task) {
    EntityReferences(a) * EntityReferences(b) != {}
  }

  function EntityReferenceMatch(a: Task, b: Task): real {
    if EntityReferences(a) == {} || EntityReferences(b) == {} then 0.0
    else if ShareReference(a, b) then 1.0
    else 0.0
  }

  function TemporalProximity(s: int, t: int): real {
    var diff := if s < t then t - s else s - t;
    if diff < HOUR then 1.0 else if diff < FULL_DAY then 0.5 else 0.1
  }

  function Confidence(a: Task, b: Task): real {
    var sum := JaccardSimilarity(a.titleWords, b.titleWords) * 0.3
             + EntityReferenceMatch(a, b) * 0.4
             + TemporalProximity(a.discoveredAt, b.discoveredAt) * 0.1
             + if a.system != b.system then 0.2 else 0.0;
    if sum < 1.0 then sum else 1.0
  }

  lemma JaccardInUnitInterval(a: set<Word>, b: set<Word>)
    ensures 0.0 <= JaccardSimilarity(a, b) <= 1.0
    ensures JaccardSimilarity(a, b) == JaccardSimilarity(b, a)
  {
    UnionIsNonEmpty(a, b);
    assert a * b == b * a && a + b == b + a;
    if a != {} || b != {} {
      Ratio(|a * b| as real, |a + b| as real);
    }
  }

  lemma Ratio(x: real, y: real)
    requires 0.0 <= x <= y && y > 0.0
    ensures 0.0 <= x / y <= 1.0
  {
  }

  /** Confidence is symmetric and lies between 0 and 1. */
  lemma ConfidenceIsSymmetric(a: Task, b: Task)
    ensures Confidence(a, b) == Confidence(b, a)
    ensures 0.0 <= Confidence(a, b) <= 1.0
  {
    JaccardInUnitInterval(a.titleWords, b.titleWords);
    assert EntityReferences(a) * EntityReferences(b) == EntityReferences(b) * EntityReferences(a);
  }

  /** Some reference is one of both: named in the text, or the id at the source. */
  ghost predicate HaveReferenceInCommon(a: Task, b: Task) {
    exists r :: Names(a, r) && Names(b, r)
  }

  predicate Names(t: Task, r: Ref) {
    r in t.textRefs || r == t.sourceId
  }

  lemma ReferenceInCommonIff(a: Task, b: Task)
    ensures HaveReferenceInCommon(a, b) <==> EntityReferences(a) * EntityReferences(b) != {}
  {
    if HaveReferenceInCommon(a, b) {
      var r :| Names(a, r) && Names(b, r);
      assert r in EntityReferences(a) * EntityReferences(b);
    }
    if EntityReferences(a) * EntityReferences(b) != {} {
      var r :| r in EntityReferences(a) * EntityReferences(b);
      assert Names(a, r) && Names(b, r);
    }
  }

  /** Confidence is the sum of its four signals; the cap at 1 never bites. */
  lemma ConfidenceIsWeighted(a: Task, b: Task)
    ensures var common, all := a.titleWords * b.titleWords, a.titleWords + b.titleWords;
            var apart := if a.discoveredAt < b.discoveredAt then b.discoveredAt - a.discoveredAt
                         else a.discoveredAt - b.discoveredAt;
            Confidence(a, b)
              == 0.3 * (if all == {} then 0.0 else UnionIsNonEmpty(a.titleWords, b.titleWords); |common| as real / |all| as real)
               + (if HaveReferenceInCommon(a, b) then 0.4 else 0.0)
               + (if apart < 3600000 then 0.1 else if apart < 86400000 then 0.05 else 0.01)
               + (if a.system == b.system then 0.0 else 0.2)
  {
    JaccardInUnitInterval(a.titleWords, b.titleWords);
    assert a.titleWords + b.titleWords == {} <==> a.titleWords == {} && b.titleWords == {};
    ReferenceInCommonIff(a, b);
    assert a.sourceId in EntityReferences(a) && b.sourceId in EntityReferences(b);
  }

  /** Without a shared reference confidence stays at or below 0.6, so no other signals can merge two
      tasks. With one it stays at or above 0.41. */
  lemma ReferencesDecide(a: Task, b: Task)
    ensures !ShareReference(a, b) ==> Confidence(a, b) <= 0.6
    ensures ShareReference(a, b) ==> Confidence(a, b) >= 0.41
  {
    JaccardInUnitInterval(a.titleWords, b.titleWords);
    assert a.sourceId in EntityReferences(a) && b.sourceId in EntityReferences(b);
  }

  /** How alike the titles of two tasks from different systems that share a reference must be for the two
      to merge: the closer in time, the less. */
  function TitleThreshold(s: int, t: int): real {
    if TemporalProximity(s, t) == 1.0 then 1.0 / 3.0
    else if TemporalProximity(s, t) == 0.5 then 1.0 / 2.0
    else 19.0 / 30.0
  }

  /** What merging takes, away from equality with the threshold: two tasks from different systems that
      share a reference merge when their titles are alike enough, and not when they are not. Two tasks
      from one system never exceed the threshold, and reach it only with the same title words, a shared
      reference and less than an hour between them. */
  lemma MergingNeeds(a: Task, b: Task)
    ensures var alike := JaccardSimilarity(a.titleWords, b.titleWords);
            var needed := TitleThreshold(a.discoveredAt, b.discoveredAt);
            && (a.system != b.system && ShareReference(a, b) && alike > needed ==> Confidence(a, b) > AUTO_MERGE)
            && (a.system != b.system && alike < needed ==> Confidence(a, b) < AUTO_MERGE)
            && (a.system == b.system ==> Confidence(a, b) <= AUTO_MERGE)
            && (a.system == b.system && Confidence(a, b) == AUTO_MERGE ==>
                  alike == 1.0 && ShareReference(a, b) && TemporalProximity(a.discoveredAt, b.discoveredAt) == 1.0)
  {
    JaccardInUnitInterval(a.titleWords, b.titleWords);
    assert a.sourceId in EntityReferences(a) && b.sourceId in EntityReferences(b);
  }

  // ----- First-fit clustering -----

  /** How confidently two tasks are the same, however it is computed: `Confidence` is the exact measure, and
      the program's own rounds each step of its sum. What follows holds of both. */
  type Measure = (Task, Task) -> real

  /** At most 1, and at the threshold or above only with a shared reference. */
  ghost predicate Sound(conf: Measure) {
    forall a, b :: conf(a, b) <= 1.0 && (conf(a, b) >= AUTO_MERGE ==> ShareReference(a, b))
  }

  /** Whatever rounds the sum by no more than a tenth is sound, the exact measure included. */
  lemma RoundedIsSound(conf: Measure)
    requires forall a, b :: conf(a, b) <= 1.0 && Confidence(a, b) - 0.1 <= conf(a, b) <= Confidence(a, b) + 0.1
    ensures Sound(conf) && Sound(Confidence)
  {
    forall a, b ensures !ShareReference(a, b) ==> Confidence(a, b) <= 0.6 {
      ReferencesDecide(a, b);
    }
  }

  predicate Merges(conf: Measure, tasks: seq<Task>, p: nat, j: nat)
    requires p < |tasks| && j < |tasks|
  {
    conf(tasks[p], tasks[j]) >= AUTO_MERGE
  }

  predicate Relates(conf: Measure, tasks: seq<Task>, p: nat, j: nat)
    requires p < |tasks| && j < |tasks|
  {
    POSSIBLY_RELATED <= conf(tasks[p], tasks[j]) < AUTO_MERGE
  }

  /** Two tasks merge from 0.8 on, and may be related from 0.5 on. */
  lemma Thresholds(conf: Measure, tasks: seq<Task>, p: nat, j: nat)
    requires p < |tasks| && j < |tasks|
    ensures Merges(conf, tasks, p, j) <==> conf(tasks[p], tasks[j]) >= 0.8
    ensures Relates(conf, tasks, p, j) <==> 0.5 <= conf(tasks[p], tasks[j]) && !Merges(conf, tasks, p, j)
  {
  }

  /** The first primary from `p` on that takes task `j`, or `j` when none does. */
  function OwnerFrom(conf: Measure, tasks: seq<Task>, j: nat, p: nat): nat
    requires p <= j < |tasks|
    decreases j, j - p
  {
    if p == j then j
    else if OwnerFrom(conf, tasks, p, 0) == p && Merges(conf, tasks, p, j) then p
    else OwnerFrom(conf, tasks, j, p + 1)
  }

  function Owner(conf: Measure, tasks: seq<Task>, j: nat): nat
    requires j < |tasks|
  {
    OwnerFrom(conf, tasks, j, 0)
  }

  /** A task that opens a group. */
  predicate Primary(conf: Measure, tasks: seq<Task>, i: nat)
    requires i < |tasks|
  {
    Owner(conf, tasks, i) == i
  }

  lemma {:induction false} OwnerFromIsFirst(conf: Measure, tasks: seq<Task>, j: nat, p: nat)
    requires p <= j < |tasks|
    ensures p <= OwnerFrom(conf, tasks, j, p) <= j
    ensures Primary(conf, tasks, OwnerFrom(conf, tasks, j, p)) || OwnerFrom(conf, tasks, j, p) == j
    ensures OwnerFrom(conf, tasks, j, p) < j ==> Merges(conf, tasks, OwnerFrom(conf, tasks, j, p), j)
    ensures forall q: nat :: p <= q < OwnerFrom(conf, tasks, j, p) ==>
              !(Primary(conf, tasks, q) && Merges(conf, tasks, q, j))
    decreases j - p
  {
    if p < j {
      OwnerFromIsFirst(conf, tasks, j, p + 1);
    }
  }

  /** Clustering is first-fit: a task is taken by the first earlier primary that merges it, and is itself
      primary exactly when there is none. */
  lemma OwnerIsFirstFit(conf: Measure, tasks: seq<Task>, j: nat)
    requires j < |tasks|
    ensures Owner(conf, tasks, j) <= j && Primary(conf, tasks, Owner(conf, tasks, j))
    ensures Owner(conf, tasks, j) < j ==> Merges(conf, tasks, Owner(conf, tasks, j), j)
    ensures forall q: nat :: q < Owner(conf, tasks, j) ==> !(Primary(conf, tasks, q) && Merges(conf, tasks, q, j))
    ensures Primary(conf, tasks, j)
       <==> forall q: nat :: q < j ==> !(Primary(conf, tasks, q) && Merges(conf, tasks, q, j))
  {
    OwnerFromIsFirst(conf, tasks, j, 0);
  }

  // ----- Groups -----

  datatype Group = Group(primary: Task, merged: seq<Task>, possiblyRelated: seq<Task>, confidence: real)

  /** Later tasks, below `n`, that primary `i` takes. */
  function MergedInto(conf: Measure, tasks: seq<Task>, i: nat, n: nat): seq<Task>
    requires i < n <= |tasks|
    decreases n
  {
    if n == i + 1 then []
    else MergedInto(conf, tasks, i, n-1) + if Owner(conf, tasks, n-1) == i then [tasks[n-1]] else []
  }

  /** Later tasks, below `n`, that no earlier primary took and that are possibly related to `i`. */
  function RelatedTo(conf: Measure, tasks: seq<Task>, i: nat, n: nat): seq<Task>
    requires i < n <= |tasks|
    decreases n
  {
    if n == i + 1 then []
    else
      RelatedTo(conf, tasks, i, n-1)
      + if Owner(conf, tasks, n-1) >= i && Relates(conf, tasks, i, n-1) then [tasks[n-1]] else []
  }

  /** The least confidence between `i` and the tasks it takes, and 1 when it takes none. */
  function GroupConfidence(conf: Measure, tasks: seq<Task>, i: nat, n: nat): real
    requires i < n <= |tasks|
    decreases n
  {
    if n == i + 1 then 1.0
    else
      var c := GroupConfidence(conf, tasks, i, n-1);
      if Owner(conf, tasks, n-1) == i && conf(tasks[i], tasks[n-1]) < c then conf(tasks[i], tasks[n-1]) else c
  }

  function GroupOf(conf: Measure, tasks: seq<Task>, i: nat, n: nat): Group
    requires i < n <= |tasks|
  {
    Group(tasks[i], MergedInto(conf, tasks, i, n), RelatedTo(conf, tasks, i, n), GroupConfidence(conf, tasks, i, n))
  }

  /** The groups opened by the first `m` tasks. */
  function Groups(conf: Measure, tasks: seq<Task>, m: nat): seq<Group>
    requires m <= |tasks|
  {
    if m == 0 then []
    else Groups(conf, tasks, m-1) + if Primary(conf, tasks, m-1) then [GroupOf(conf, tasks, m-1, |tasks|)] else []
  }

  method Correlate(conf: Measure, tasks: seq<Task>) returns (groups: seq<Group>)
    ensures groups == Groups(conf, tasks, |tasks|)
  {
    groups := [];
    var taken: set<nat> := {};
    for i := 0 to |tasks|
      invariant groups == Groups(conf, tasks, i)
      invariant forall j: nat :: j < |tasks| ==> (j in taken <==> Owner(conf, tasks, j) < i)
    {
      OwnerIsFirstFit(conf, tasks, i);
      if i in taken {
        forall j: nat | j < |tasks| ensures Owner(conf, tasks, j) != i {
          OwnerIsFirstFit(conf, tasks, j);
        }
        continue;
      }
      var group;
      group, taken := OpenGroup(conf, tasks, i, taken);
      groups := groups + [group];
    }
  }

  /** One turn of the outer loop: open a group for primary `i` and compare it with every later task. */
  method OpenGroup(conf: Measure, tasks: seq<Task>, i: nat, taken: set<nat>) returns (group: Group, taken': set<nat>)
    requires i < |tasks| && Primary(conf, tasks, i)
    requires forall j: nat :: j < |tasks| ==> (j in taken <==> Owner(conf, tasks, j) < i)
    ensures group == GroupOf(conf, tasks, i, |tasks|)
    ensures forall j: nat :: j < |tasks| ==> (j in taken' <==> Owner(conf, tasks, j) < i + 1)
  {
    forall k: nat | k <= i ensures Owner(conf, tasks, k) <= k {
      OwnerIsFirstFit(conf, tasks, k);
    }
    group := Group(tasks[i], [], [], 1.0);
    taken' := taken + {i};
    for j := i + 1 to |tasks|
      invariant group == GroupOf(conf, tasks, i, j)
      invariant forall k: nat :: k < j ==> (k in taken' <==> k in taken || Owner(conf, tasks, k) == i)
      invariant forall k: nat :: j <= k < |tasks| ==> (k in taken' <==> k in taken)
    {
      OwnerIsFirstFit(conf, tasks, j);
      if j in taken' {
        continue;
      }
      var confidence := conf(tasks[i], tasks[j]);
      if confidence >= AUTO_MERGE {
        group := group.(merged := group.merged + [tasks[j]],
                        confidence := if confidence < group.confidence then confidence else group.confidence);
        taken' := taken' + {j};
      } else if confidence >= POSSIBLY_RELATED {
        group := group.(possiblyRelated := group.possiblyRelated + [tasks[j]]);
      }
    }
  }

  // ----- What the groups are -----

  /** A group's merged tasks are exactly the later ones it owns ... */
  lemma {:induction false} GroupMembers(conf: Measure, tasks: seq<Task>, i: nat, n: nat, t: Task)
    requires i < n <= |tasks|
    ensures t in MergedInto(conf, tasks, i, n)
       <==> exists j: nat :: i < j < n && tasks[j] == t && Owner(conf, tasks, j) == i
    decreases n
  {
    if n > i + 1 {
      GroupMembers(conf, tasks, i, n-1, t);
    }
  }

  /** Task `j` is possibly related to primary `i`: later, with confidence in [0.5, 0.8), and taken by no
      primary before `i`. */
  ghost predicate PossiblyRelated(conf: Measure, tasks: seq<Task>, i: nat, j: nat)
    requires i < |tasks| && j < |tasks|
  {
    i < j && Relates(conf, tasks, i, j) && forall q: nat :: q < i ==> !(Primary(conf, tasks, q) && Merges(conf, tasks, q, j))
  }

  /** ... and exactly the possibly related ones are listed as such. */
  lemma {:induction false} GroupRelated(conf: Measure, tasks: seq<Task>, i: nat, n: nat, t: Task)
    requires i < n <= |tasks|
    ensures t in RelatedTo(conf, tasks, i, n)
       <==> exists j: nat :: i < j < n && tasks[j] == t && PossiblyRelated(conf, tasks, i, j)
    decreases n
  {
    if n > i + 1 {
      GroupRelated(conf, tasks, i, n-1, t);
      NoEarlierOwner(conf, tasks, n-1, i);
      assert PossiblyRelated(conf, tasks, i, n-1) <==> Owner(conf, tasks, n-1) >= i && Relates(conf, tasks, i, n-1);
    }
  }

  lemma NoEarlierOwner(conf: Measure, tasks: seq<Task>, j: nat, i: nat)
    requires i <= j < |tasks|
    ensures Owner(conf, tasks, j) >= i
       <==> forall q: nat :: q < i ==> !(Primary(conf, tasks, q) && Merges(conf, tasks, q, j))
  {
    OwnerIsFirstFit(conf, tasks, j);
  }

  /** A group's confidence is the minimum over the tasks it takes: at least 0.8, and 1 for a group of one. */
  lemma {:induction false} ConfidenceIsMinimum(conf: Measure, tasks: seq<Task>, i: nat, n: nat)
    requires Sound(conf)
    requires i < n <= |tasks|
    ensures forall j: nat :: i < j < n && Owner(conf, tasks, j) == i ==>
              GroupConfidence(conf, tasks, i, n) <= conf(tasks[i], tasks[j])
    ensures MergedInto(conf, tasks, i, n) == [] ==> GroupConfidence(conf, tasks, i, n) == 1.0
    ensures MergedInto(conf, tasks, i, n) != [] ==>
              exists j: nat :: i < j < n && Owner(conf, tasks, j) == i && GroupConfidence(conf, tasks, i, n) == conf(tasks[i], tasks[j])
    ensures AUTO_MERGE <= GroupConfidence(conf, tasks, i, n) <= 1.0
    decreases n
  {
    if n > i + 1 {
      ConfidenceIsMinimum(conf, tasks, i, n-1);
      OwnerIsFirstFit(conf, tasks, n-1);
    }
  }

  /** The merged tasks stand in the order of the input ... */
  lemma {:induction false} MergedInOrder(conf: Measure, tasks: seq<Task>, i: nat, n: nat) returns (at: seq<nat>)
    requires i < n <= |tasks|
    ensures Positions(at, n) && forall j: nat :: j < n ==> (j in at <==> i < j && Owner(conf, tasks, j) == i)
    ensures |MergedInto(conf, tasks, i, n)| == |at|
    ensures forall k :: 0 <= k < |at| ==> MergedInto(conf, tasks, i, n)[k] == tasks[at[k]]
    decreases n
  {
    if n == i + 1 {
      at := [];
    } else {
      at := MergedInOrder(conf, tasks, i, n-1);
      OneMorePosition(at, n-1);
      if Owner(conf, tasks, n-1) == i {
        at := at + [n-1];
      }
    }
  }

  lemma {:induction false} RelatedPositions(conf: Measure, tasks: seq<Task>, i: nat, n: nat) returns (at: seq<nat>)
    requires i < n <= |tasks|
    ensures Positions(at, n)
    ensures forall j: nat :: j < n ==> (j in at <==> i < j && Owner(conf, tasks, j) >= i && Relates(conf, tasks, i, j))
    ensures |RelatedTo(conf, tasks, i, n)| == |at|
    ensures forall k :: 0 <= k < |at| ==> RelatedTo(conf, tasks, i, n)[k] == tasks[at[k]]
    decreases n
  {
    if n == i + 1 {
      at := [];
    } else {
      at := RelatedPositions(conf, tasks, i, n-1);
      OneMorePosition(at, n-1);
      if Owner(conf, tasks, n-1) >= i && Relates(conf, tasks, i, n-1) {
        at := at + [n-1];
      }
    }
  }

  /** ... and so do the possibly related ones. */
  lemma RelatedInOrder(conf: Measure, tasks: seq<Task>, i: nat) returns (at: seq<nat>)
    requires i < |tasks|
    ensures Positions(at, |tasks|) && forall j: nat :: j < |tasks| ==> (j in at <==> PossiblyRelated(conf, tasks, i, j))
    ensures |RelatedTo(conf, tasks, i, |tasks|)| == |at|
    ensures forall k :: 0 <= k < |at| ==> RelatedTo(conf, tasks, i, |tasks|)[k] == tasks[at[k]]
  {
    at := RelatedPositions(conf, tasks, i, |tasks|);
    forall j: nat | j < |tasks| ensures j in at <==> PossiblyRelated(conf, tasks, i, j) {
      if i < j {
        NoEarlierOwner(conf, tasks, j, i);
      }
    }
  }

  /** There is one group for each primary, in the order of the input; which those are says `OwnerIsFirstFit`. */
  lemma {:induction false} GroupsInOrder(conf: Measure, tasks: seq<Task>, m: nat) returns (at: seq<nat>)
    requires m <= |tasks|
    ensures Positions(at, m) && forall i: nat :: i < m ==> (i in at <==> Primary(conf, tasks, i))
    ensures |Groups(conf, tasks, m)| == |at|
    ensures forall k :: 0 <= k < |at| ==> Groups(conf, tasks, m)[k] == GroupOf(conf, tasks, at[k], |tasks|)
  {
    if m == 0 {
      at := [];
    } else {
      at := GroupsInOrder(conf, tasks, m-1);
      OneMorePosition(at, m-1);
      if Primary(conf, tasks, m-1) {
        at := at + [m-1];
      }
    }
  }

  /** Whatever is merged shares a reference with its primary. */
  lemma MergedTasksShareAReference(conf: Measure, tasks: seq<Task>, i: nat, t: Task)
    requires Sound(conf)
    requires i < |tasks| && t in MergedInto(conf, tasks, i, |tasks|)
    ensures ShareReference(tasks[i], t)
  {
    GroupMembers(conf, tasks, i, |tasks|, t);
    var j: nat :| i < j < |tasks| && tasks[j] == t && Owner(conf, tasks, j) == i;
    OwnerIsFirstFit(conf, tasks, j);
  }

  lemma {:induction false} GroupsAreOpened(conf: Measure, tasks: seq<Task>, m: nat, k: nat) returns (i: nat)
    requires m <= |tasks| && k < |Groups(conf, tasks, m)|
    ensures i < m && Primary(conf, tasks, i) && Groups(conf, tasks, m)[k] == GroupOf(conf, tasks, i, |tasks|)
  {
    if k < |Groups(conf, tasks, m-1)| {
      i := GroupsAreOpened(conf, tasks, m-1, k);
    } else {
      i := m-1;
    }
  }

  /** Every group reported: its primary no earlier primary merges; what it merged is what no primary before
      it merges and it does; what it lists as possibly related; and its confidence. */
  lemma GroupIsFirstFit(conf: Measure, tasks: seq<Task>, k: nat, t: Task) returns (i: nat)
    requires Sound(conf) && k < |Groups(conf, tasks, |tasks|)|
    ensures var g := Groups(conf, tasks, |tasks|)[k];
            && i < |tasks| && g.primary == tasks[i]
            && (forall q: nat :: q < i ==> !(Primary(conf, tasks, q) && Merges(conf, tasks, q, i)))
            && (t in g.merged <==> exists j: nat :: i < j < |tasks| && tasks[j] == t && Owner(conf, tasks, j) == i)
            && (t in g.possiblyRelated <==>
                  exists j: nat :: i < j < |tasks| && tasks[j] == t && PossiblyRelated(conf, tasks, i, j))
            && 0.8 <= g.confidence <= 1.0 && (g.merged == [] ==> g.confidence == 1.0)
  {
    i := GroupsAreOpened(conf, tasks, |tasks|, k);
    OwnerIsFirstFit(conf, tasks, i);
    GroupMembers(conf, tasks, i, |tasks|, t);
    GroupRelated(conf, tasks, i, |tasks|, t);
    ConfidenceIsMinimum(conf, tasks, i, |tasks|);
  }

  // ----- The groups partition the tasks -----

  /** How often `t` occurs. */
  function Copies(s: seq<Task>, t: Task): nat {
    if s == [] then 0 else Copies(s[..|s|-1], t) + if s[|s|-1] == t then 1 else 0
  }

  lemma CopiesSnoc(s: seq<Task>, x: Task, t: Task)
    ensures Copies(s + [x], t) == Copies(s, t) + if x == t then 1 else 0
  {
    assert (s + [x])[..|s|] == s;
  }

  /** How often `t` occurs among the primaries and merged tasks of some groups. */
  function MemberCopies(groups: seq<Group>, t: Task): nat {
    if groups == [] then 0
    else
      var last := groups[|groups|-1];
      MemberCopies(groups[..|groups|-1], t) + (if last.primary == t then 1 else 0) + Copies(last.merged, t)
  }

  /** How often `t` occurs among the tasks below `n` whose owner is `i` or later. */
  function LeftCopies(conf: Measure, tasks: seq<Task>, i: nat, n: nat, t: Task): nat
    requires n <= |tasks|
  {
    if n == 0 then 0
    else LeftCopies(conf, tasks, i, n-1, t) + if Owner(conf, tasks, n-1) >= i && tasks[n-1] == t then 1 else 0
  }

  /** How often `t` occurs in what the group of `i` takes out of the tasks below `n`. */
  function TakenCopies(conf: Measure, tasks: seq<Task>, i: nat, n: nat, t: Task): nat
    requires i < |tasks| && n <= |tasks|
  {
    if i < n && Primary(conf, tasks, i) then (if tasks[i] == t then 1 else 0) + Copies(MergedInto(conf, tasks, i, n), t)
    else 0
  }

  lemma TakenNext(conf: Measure, tasks: seq<Task>, i: nat, n: nat, t: Task)
    requires i < |tasks| && 0 < n <= |tasks|
    ensures TakenCopies(conf, tasks, i, n, t)
         == TakenCopies(conf, tasks, i, n-1, t) + if Owner(conf, tasks, n-1) == i && tasks[n-1] == t then 1 else 0
  {
    OwnerIsFirstFit(conf, tasks, n-1);
    if i < n-1 {
      CopiesSnoc(MergedInto(conf, tasks, i, n-1), tasks[n-1], t);
      assert MergedInto(conf, tasks, i, n-1) + [] == MergedInto(conf, tasks, i, n-1);
    }
  }

  /** Opening a group takes exactly its members out of what is left. */
  lemma {:induction false} LeftShrinks(conf: Measure, tasks: seq<Task>, i: nat, n: nat, t: Task)
    requires i < |tasks| && n <= |tasks|
    ensures LeftCopies(conf, tasks, i, n, t) == LeftCopies(conf, tasks, i + 1, n, t) + TakenCopies(conf, tasks, i, n, t)
  {
    if n > 0 {
      LeftShrinks(conf, tasks, i, n-1, t);
      TakenNext(conf, tasks, i, n, t);
    }
  }

  lemma {:induction false} AllLeftAtFirst(conf: Measure, tasks: seq<Task>, n: nat, t: Task)
    requires n <= |tasks|
    ensures LeftCopies(conf, tasks, 0, n, t) == Copies(tasks[..n], t)
  {
    if n > 0 {
      AllLeftAtFirst(conf, tasks, n-1, t);
      assert tasks[..n] == tasks[..n-1] + [tasks[n-1]];
      CopiesSnoc(tasks[..n-1], tasks[n-1], t);
    }
  }

  lemma {:induction false} NoneLeftAtLast(conf: Measure, tasks: seq<Task>, i: nat, n: nat, t: Task)
    requires n <= |tasks| && n <= i
    ensures LeftCopies(conf, tasks, i, n, t) == 0
  {
    if n > 0 {
      NoneLeftAtLast(conf, tasks, i, n-1, t);
      OwnerIsFirstFit(conf, tasks, n-1);
    }
  }

  lemma MembersNext(conf: Measure, tasks: seq<Task>, i: nat, t: Task)
    requires i < |tasks|
    ensures MemberCopies(Groups(conf, tasks, i + 1), t)
         == MemberCopies(Groups(conf, tasks, i), t) + TakenCopies(conf, tasks, i, |tasks|, t)
  {
    var before := Groups(conf, tasks, i);
    if Primary(conf, tasks, i) {
      assert Groups(conf, tasks, i + 1)[..|before|] == before;
    } else {
      assert Groups(conf, tasks, i + 1) == before;
    }
  }

  lemma {:induction false} MembersAndLeft(conf: Measure, tasks: seq<Task>, i: nat, t: Task)
    requires i <= |tasks|
    ensures MemberCopies(Groups(conf, tasks, i), t) + LeftCopies(conf, tasks, i, |tasks|, t) == Copies(tasks, t)
  {
    if i == 0 {
      AllLeftAtFirst(conf, tasks, |tasks|, t);
      assert tasks[..|tasks|] == tasks;
    } else {
      MembersAndLeft(conf, tasks, i-1, t);
      LeftShrinks(conf, tasks, i-1, |tasks|, t);
      MembersNext(conf, tasks, i-1, t);
    }
  }

  /** Nothing is lost or duplicated: every task occurs among primaries and merged tasks as often as in the
      input. */
  lemma GroupsPartitionTasks(conf: Measure, tasks: seq<Task>, t: Task)
    ensures MemberCopies(Groups(conf, tasks, |tasks|), t) == Copies(tasks, t)
  {
    MembersAndLeft(conf, tasks, |tasks|, t);
    NoneLeftAtLast(conf, tasks, |tasks|, |tasks|, t);
  }

  // ----- At the threshold -----

  /** Two items of one system that agree in everything reach the threshold exactly, so it is rounding that
      decides whether they merge: whatever the measure, they make one group exactly when it does not fall
      below the threshold on them. */
  lemma EqualItemsMergeIff(conf: Measure, t: Task)
    requires t.titleWords != {}
    ensures Confidence(t, t) == AUTO_MERGE
    ensures |Groups(conf, [t, t], 2)| == 1 <==> conf(t, t) >= AUTO_MERGE
  {
    assert t.titleWords * t.titleWords == t.titleWords == t.titleWords + t.titleWords;
    assert t.sourceId in EntityReferences(t) * EntityReferences(t);
    var tasks := [t, t];
    assert Primary(conf, tasks, 0);
    assert Primary(conf, tasks, 1) <==> !Merges(conf, tasks, 0, 1);
    assert Groups(conf, tasks, 1) == [GroupOf(conf, tasks, 0, 2)];
  }
}
