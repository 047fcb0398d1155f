/** The difference of two manifests (manifest/diff.go), with renames paired by content. */
module Diff {
  import opened Common
  import opened Objects
  import opened Paths
  import opened Merge

  datatype Change = Change(before: Entry, after: Entry)

  datatype Changes = Changes(added: seq<Entry>, removed: seq<Entry>, changed: seq<Change>, renamed: seq<Change>)

  // ----- occurrences of a content -------------------------------------------------------------

  /** How many entries hold the content `id`. */
  function Count(es: seq<Entry>, id: Id): nat {
    if es == [] then 0
    else Count(es[..|es| - 1], id) + if es[|es| - 1].file == id then 1 else 0
  }

  /** How many earlier entries hold the same content as entry `i`. */
  function Rank(es: seq<Entry>, i: nat): nat
    requires i < |es|
  {
    Count(es[..i], es[i].file)
  }

  /** The indices of the entries that hold `id`, in order. */
  function Occurrences(es: seq<Entry>, id: Id): (r: seq<nat>)
    ensures |r| == Count(es, id)
    ensures forall k | 0 <= k < |r| :: r[k] < |es| && es[r[k]].file == id && Rank(es, r[k]) == k
    ensures forall i | 0 <= i < |es| && es[i].file == id :: Rank(es, i) < |r| && r[Rank(es, i)] == i
  {
    if es == [] then []
    else
      var n := |es| - 1;
      var init := Occurrences(es[..n], id);
      assert forall i | 0 <= i < n :: es[..n][..i] == es[..i];
      if es[n].file == id then init + [n] else init
  }

  lemma CountSnoc(es: seq<Entry>, n: nat, id: Id)
    requires n < |es|
    ensures Count(es[..n + 1], id) == Count(es[..n], id) + if es[n].file == id then 1 else 0
  {
    assert es[..n + 1][..n] == es[..n];
  }

  lemma {:induction false} CountGrows(es: seq<Entry>, m: nat, n: nat, id: Id)
    requires m <= n <= |es|
    ensures Count(es[..m], id) <= Count(es[..n], id)
    decreases n - m
  {
    if m < n {
      CountSnoc(es, m, id);
      CountGrows(es, m + 1, n, id);
    }
  }

  // ----- pairing ------------------------------------------------------------------------------

  /** Added entry `j` finds an unused removed entry of its content: the one of its own rank. */
  predicate IsRename(removed: seq<Entry>, added: seq<Entry>, j: nat)
    requires j < |added|
  {
    Rank(added, j) < Count(removed, added[j].file)
  }

  function Partner(removed: seq<Entry>, added: seq<Entry>, j: nat): (i: nat)
    requires j < |added| && IsRename(removed, added, j)
    ensures i < |removed| && removed[i].file == added[j].file && Rank(removed, i) == Rank(added, j)
  {
    Occurrences(removed, added[j].file)[Rank(added, j)]
  }

  function Renames(removed: seq<Entry>, added: seq<Entry>, n: nat): seq<Change>
    requires n <= |added|
  {
    if n == 0 then []
    else if IsRename(removed, added, n - 1) then
      Renames(removed, added, n - 1) + [Change(removed[Partner(removed, added, n - 1)], added[n - 1])]
    else
      Renames(removed, added, n - 1)
  }

  function StillAdded(removed: seq<Entry>, added: seq<Entry>, n: nat): seq<Entry>
    requires n <= |added|
  {
    if n == 0 then []
    else if IsRename(removed, added, n - 1) then StillAdded(removed, added, n - 1)
    else StillAdded(removed, added, n - 1) + [added[n - 1]]
  }

  /** Removed entry `i` is used up by the first `n` added entries. */
  predicate Consumed(removed: seq<Entry>, added: seq<Entry>, n: nat, i: nat)
    requires n <= |added| && i < |removed|
  {
    Rank(removed, i) < Count(added[..n], removed[i].file)
  }

  function StillRemoved(removed: seq<Entry>, added: seq<Entry>, n: nat): seq<Entry>
    requires n <= |removed|
  {
    if n == 0 then []
    else if Consumed(removed, added, |added|, n - 1) then StillRemoved(removed, added, n - 1)
    else StillRemoved(removed, added, n - 1) + [removed[n - 1]]
  }

  /** The queue of a content after `n` added entries: its occurrences, less those used up. */
  function QueueAfter(removed: seq<Entry>, added: seq<Entry>, n: nat, id: Id): seq<nat>
    requires n <= |added|
  {
    var all := Occurrences(removed, id);
    all[Min(Count(added[..n], id), |all|)..]
  }

  function Queue(queues: map<Id, seq<nat>>, id: Id): seq<nat> {
    if id in queues then queues[id] else []
  }

  ghost predicate QueuesAfter(queues: map<Id, seq<nat>>, removed: seq<Entry>, added: seq<Entry>, n: nat)
    requires n <= |added|
  {
    forall id :: Queue(queues, id) == QueueAfter(removed, added, n, id)
  }

  ghost predicate ConsumedAfter(consumed: seq<bool>, removed: seq<Entry>, added: seq<Entry>, n: nat)
    requires n <= |added|
  {
    |consumed| == |removed| && forall i | 0 <= i < |removed| :: consumed[i] == Consumed(removed, added, n, i)
  }

  lemma OccurrencesSnoc(es: seq<Entry>, i: nat, id: Id)
    requires i < |es|
    ensures Occurrences(es[..i + 1], id) == Occurrences(es[..i], id) + if es[i].file == id then [i] else []
  {
    assert es[..i + 1][..i] == es[..i];
  }

  /** The queues of the first `n` removed entries. */
  ghost predicate QueuesOf(queues: map<Id, seq<nat>>, removed: seq<Entry>, n: nat)
    requires n <= |removed|
  {
    forall id :: Queue(queues, id) == Occurrences(removed[..n], id)
  }

  lemma QueuedOneMore(queues: map<Id, seq<nat>>, removed: seq<Entry>, i: nat)
    requires i < |removed| && QueuesOf(queues, removed, i)
    ensures QueuesOf(queues[removed[i].file := Queue(queues, removed[i].file) + [i]], removed, i + 1)
  {
    var next := queues[removed[i].file := Queue(queues, removed[i].file) + [i]];
    forall id ensures Queue(next, id) == Occurrences(removed[..i + 1], id) {
      OccurrencesSnoc(removed, i, id);
      assert Queue(queues, id) == Occurrences(removed[..i], id);
    }
  }

  lemma QueuesAreComplete(queues: map<Id, seq<nat>>, removed: seq<Entry>)
    requires QueuesOf(queues, removed, |removed|)
    ensures QueuesAfter(queues, removed, [], 0)
  {
    assert removed[..|removed|] == removed;
    forall id ensures Queue(queues, id) == QueueAfter(removed, [], 0, id) {
      assert Queue(queues, id) == Occurrences(removed, id);
    }
  }

  method BuildQueues(removed: seq<Entry>) returns (queues: map<Id, seq<nat>>)
    ensures QueuesAfter(queues, removed, [], 0)
  {
    queues := map[];
    for i := 0 to |removed|
      invariant QueuesOf(queues, removed, i)
    {
      QueuedOneMore(queues, removed, i);
      queues := queues[removed[i].file := Queue(queues, removed[i].file) + [i]];
    }
    QueuesAreComplete(queues, removed);
  }

  /** One round of the pairing loop: take the head of the content's queue, if there is one. */
  method TakePartner(removed: seq<Entry>, added: seq<Entry>, j: nat, queues: map<Id, seq<nat>>, consumed: array<bool>)
    returns (queues': map<Id, seq<nat>>, partner: Option<nat>)
    requires j < |added| && QueuesAfter(queues, removed, added, j) && ConsumedAfter(consumed[..], removed, added, j)
    modifies consumed
    ensures QueuesAfter(queues', removed, added, j + 1) && ConsumedAfter(consumed[..], removed, added, j + 1)
    ensures partner == if IsRename(removed, added, j) then Some(Partner(removed, added, j)) else None
  {
    var queue := Queue(queues, added[j].file);
    ghost var before := consumed[..];
    QueuesStep(queues, removed, added, j);
    ConsumedStep(before, removed, added, j);
    if queue == [] {
      return queues, None;
    }
    queues' := queues[added[j].file := queue[1..]];
    partner := Some(queue[0]);
    consumed[queue[0]] := true;
    assert consumed[..] == before[queue[0] := true];
  }

  /** pairRenames */
  method PairRenames(removed: seq<Entry>, added: seq<Entry>)
    returns (stillAdded: seq<Entry>, stillRemoved: seq<Entry>, renamed: seq<Change>)
    ensures stillAdded == StillAdded(removed, added, |added|)
    ensures stillRemoved == StillRemoved(removed, added, |removed|)
    ensures renamed == Renames(removed, added, |added|)
  {
    var queues := BuildQueues(removed);
    var consumed := new bool[|removed|](_ => false);
    stillAdded, stillRemoved, renamed := [], [], [];
    assert added[..0] == [];
    for j := 0 to |added|
      invariant QueuesAfter(queues, removed, added, j)
      invariant ConsumedAfter(consumed[..], removed, added, j)
      invariant stillAdded == StillAdded(removed, added, j)
      invariant renamed == Renames(removed, added, j)
    {
      var partner;
      queues, partner := TakePartner(removed, added, j, queues, consumed);
      if partner.None? {
        stillAdded := stillAdded + [added[j]];
      } else {
        renamed := renamed + [Change(removed[partner.value], added[j])];
      }
    }
    for i := 0 to |removed|
      invariant stillRemoved == StillRemoved(removed, added, i)
    {
      assert consumed[i] == consumed[..][i];
      if !consumed[i] {
        stillRemoved := stillRemoved + [removed[i]];
      }
    }
  }

  /** One more added entry takes its partner off the queue of its content, and touches no other. */
  lemma QueuesStep(queues: map<Id, seq<nat>>, removed: seq<Entry>, added: seq<Entry>, j: nat)
    requires j < |added| && QueuesAfter(queues, removed, added, j)
    ensures var f, q := added[j].file, Queue(queues, added[j].file);
      && (q == [] <==> !IsRename(removed, added, j))
      && (q != [] ==> q[0] == Partner(removed, added, j))
      && QueuesAfter(if q == [] then queues else queues[f := q[1..]], removed, added, j + 1)
  {
    var f, q := added[j].file, Queue(queues, added[j].file);
    assert q == QueueAfter(removed, added, j, f);
    var next := if q == [] then queues else queues[f := q[1..]];
    forall id ensures Queue(next, id) == QueueAfter(removed, added, j + 1, id) {
      assert Queue(queues, id) == QueueAfter(removed, added, j, id);
      CountSnoc(added, j, id);
      var all := Occurrences(removed, id);
      if id == f && q != [] {
        assert all[Count(added[..j], id)..][1..] == all[Count(added[..j], id) + 1..];
      }
    }
  }

  /** ... and is the only removed entry newly used up. */
  lemma ConsumedStep(consumed: seq<bool>, removed: seq<Entry>, added: seq<Entry>, j: nat)
    requires j < |added| && ConsumedAfter(consumed, removed, added, j)
    ensures ConsumedAfter(
      if IsRename(removed, added, j) then consumed[Partner(removed, added, j) := true] else consumed,
      removed, added, j + 1)
  {
    var f := added[j].file;
    var all := Occurrences(removed, f);
    var next := if IsRename(removed, added, j) then consumed[Partner(removed, added, j) := true] else consumed;
    forall i | 0 <= i < |removed| ensures next[i] == Consumed(removed, added, j + 1, i) {
      assert consumed[i] == Consumed(removed, added, j, i);
      CountSnoc(added, j, removed[i].file);
      if removed[i].file == f {
        assert all[Rank(removed, i)] == i;
      }
    }
  }

  // ----- what the pairing achieves ------------------------------------------------------------

  lemma {:induction false} StillAddedHolds(removed: seq<Entry>, added: seq<Entry>, n: nat, e: Entry)
    requires n <= |added|
    ensures e in StillAdded(removed, added, n) <==>
            exists j | 0 <= j < n :: added[j] == e && !IsRename(removed, added, j)
  {
    if n > 0 {
      StillAddedHolds(removed, added, n - 1, e);
    }
  }

  lemma {:induction false} StillRemovedHolds(removed: seq<Entry>, added: seq<Entry>, n: nat, e: Entry)
    requires n <= |removed|
    ensures e in StillRemoved(removed, added, n) <==>
            exists i | 0 <= i < n :: removed[i] == e && !Consumed(removed, added, |added|, i)
  {
    if n > 0 {
      StillRemovedHolds(removed, added, n - 1, e);
    }
  }

  lemma {:induction false} RenamesHold(removed: seq<Entry>, added: seq<Entry>, n: nat, r: Change)
    requires n <= |added|
    ensures r in Renames(removed, added, n) <==>
            exists j | 0 <= j < n && IsRename(removed, added, j) ::
              r == Change(removed[Partner(removed, added, j)], added[j])
  {
    if n > 0 {
      RenamesHold(removed, added, n - 1, r);
    }
  }

  /** A removed entry is used up exactly when some added entry was paired with it, and by one only. */
  lemma ConsumedByOne(removed: seq<Entry>, added: seq<Entry>, i: nat)
    requires i < |removed|
    ensures Consumed(removed, added, |added|, i) <==>
            exists j | 0 <= j < |added| && IsRename(removed, added, j) :: Partner(removed, added, j) == i
    ensures forall j, k | 0 <= j < |added| && 0 <= k < |added|
              && IsRename(removed, added, j) && IsRename(removed, added, k)
              && Partner(removed, added, j) == Partner(removed, added, k) == i :: j == k
  {
    var id := removed[i].file;
    assert added[..|added|] == added;
    var sources, targets := Occurrences(removed, id), Occurrences(added, id);
    assert sources[Rank(removed, i)] == i;
    if Consumed(removed, added, |added|, i) {
      var j := targets[Rank(removed, i)];
      assert IsRename(removed, added, j) && Partner(removed, added, j) == i;
    }
    forall j | 0 <= j < |added| && IsRename(removed, added, j) && Partner(removed, added, j) == i
      ensures j == targets[Rank(removed, i)] && Consumed(removed, added, |added|, i)
    {
      assert added[j].file == id && Rank(added, j) == Rank(removed, i);
    }
  }

  /** Renames are detected exhaustively: no content is both added and removed. */
  lemma NoContentBothAddedAndRemoved(removed: seq<Entry>, added: seq<Entry>, a: Entry, r: Entry)
    requires a in StillAdded(removed, added, |added|) && r in StillRemoved(removed, added, |removed|)
    ensures a.file != r.file
  {
    StillAddedHolds(removed, added, |added|, a);
    StillRemovedHolds(removed, added, |removed|, r);
    var j :| 0 <= j < |added| && added[j] == a && !IsRename(removed, added, j);
    var i :| 0 <= i < |removed| && removed[i] == r && !Consumed(removed, added, |added|, i);
    assert added[..|added|] == added;
    var sources, targets := Occurrences(removed, r.file), Occurrences(added, a.file);
    assert sources[Rank(removed, i)] == i && targets[Rank(added, j)] == j;
  }

  /** Every added entry is either still an addition or the target of a rename. */
  lemma AddedSplits(removed: seq<Entry>, added: seq<Entry>, e: Entry)
    ensures e in added <==>
            || e in StillAdded(removed, added, |added|)
            || exists r :: r in Renames(removed, added, |added|) && r.after == e
  {
    StillAddedHolds(removed, added, |added|, e);
    if e in added {
      var j :| 0 <= j < |added| && added[j] == e;
      if IsRename(removed, added, j) {
        var r := Change(removed[Partner(removed, added, j)], e);
        RenamesHold(removed, added, |added|, r);
        assert r.after == e;
      }
    }
    if r :| r in Renames(removed, added, |added|) && r.after == e {
      RenamesHold(removed, added, |added|, r);
    }
  }

  lemma ConsumedIsSource(removed: seq<Entry>, added: seq<Entry>, i: nat)
    requires i < |removed| && Consumed(removed, added, |added|, i)
    ensures exists r :: r in Renames(removed, added, |added|) && r.before == removed[i]
  {
    ConsumedByOne(removed, added, i);
    var j :| 0 <= j < |added| && IsRename(removed, added, j) && Partner(removed, added, j) == i;
    var r := Change(removed[i], added[j]);
    RenamesHold(removed, added, |added|, r);
    assert r.before == removed[i];
  }

  /** Every removed entry is either still a removal or the source of a rename. */
  lemma RemovedSplits(removed: seq<Entry>, added: seq<Entry>, e: Entry)
    ensures e in removed <==>
            || e in StillRemoved(removed, added, |removed|)
            || exists r :: r in Renames(removed, added, |added|) && r.before == e
  {
    StillRemovedHolds(removed, added, |removed|, e);
    if e in removed && e !in StillRemoved(removed, added, |removed|) {
      var i :| 0 <= i < |removed| && removed[i] == e;
      ConsumedIsSource(removed, added, i);
    }
    if r :| r in Renames(removed, added, |added|) && r.before == e {
      RenamesHold(removed, added, |added|, r);
    }
  }

  // ----- Diff ---------------------------------------------------------------------------------

  /** The entries of `m` whose path `other` does not have. */
  function Missing(m: Manifest, other: Manifest): seq<Entry> {
    if m == [] then []
    else
      var last := m[|m| - 1];
      Missing(m[..|m| - 1], other) + if last.path in ByPath(other) then [] else [last]
  }

  function ChangedIn(before: Manifest, after: Manifest): seq<Change> {
    if before == [] then []
    else
      var last := before[|before| - 1];
      ChangedIn(before[..|before| - 1], after) +
      if last.path in ByPath(after) && ByPath(after)[last.path].file != last.file
      then [Change(last, ByPath(after)[last.path])] else []
  }

  function DiffOf(before: Manifest, after: Manifest): Changes {
    var removed, added := Missing(before, after), Missing(after, before);
    Changes(StillAdded(removed, added, |added|), StillRemoved(removed, added, |removed|),
            ChangedIn(before, after), Renames(removed, added, |added|))
  }

  /** Diff */
  method DiffManifests(before: Manifest, after: Manifest) returns (changes: Changes)
    ensures changes == DiffOf(before, after)
    ensures Sorted(before) && Sorted(after) ==> IsDiff(before, after, changes)
  {
    if Sorted(before) && Sorted(after) {
      DiffOfIsDiff(before, after);
    }
    var beforeByPath, afterByPath := ByPath(before), ByPath(after);
    var removed, added, changed := [], [], [];
    for i := 0 to |before|
      invariant removed == Missing(before[..i], after)
      invariant changed == ChangedIn(before[..i], after)
    {
      assert before[..i + 1][..i] == before[..i];
      var entry := before[i];
      if entry.path !in afterByPath {
        removed := removed + [entry];
      } else if afterByPath[entry.path].file != entry.file {
        changed := changed + [Change(entry, afterByPath[entry.path])];
      }
    }
    assert before[..|before|] == before;
    for i := 0 to |after|
      invariant added == Missing(after[..i], before)
    {
      assert after[..i + 1][..i] == after[..i];
      if after[i].path !in beforeByPath {
        added := added + [after[i]];
      }
    }
    assert after[..|after|] == after;
    var stillAdded, stillRemoved, renamed := PairRenames(removed, added);
    return Changes(stillAdded, stillRemoved, changed, renamed);
  }

  lemma {:induction false} MissingHolds(m: Manifest, other: Manifest, e: Entry)
    ensures e in Missing(m, other) <==> e in m && e.path !in ByPath(other)
  {
    if m != [] {
      MissingHolds(m[..|m| - 1], other, e);
      assert m == m[..|m| - 1] + [m[|m| - 1]];
    }
  }

  lemma {:induction false} ChangedHolds(before: Manifest, after: Manifest, c: Change)
    ensures c in ChangedIn(before, after) <==>
            && c.before in before && c.before.path in ByPath(after)
            && c.after == ByPath(after)[c.before.path] && c.after.file != c.before.file
  {
    if before != [] {
      ChangedHolds(before[..|before| - 1], after, c);
      assert before == before[..|before| - 1] + [before[|before| - 1]];
    }
  }

  /** Every rename pairs two entries of one content: one path that went, one that came. */
  lemma RenamesMoveContent(before: Manifest, after: Manifest, r: Change)
    requires r in DiffOf(before, after).renamed
    ensures r.before.file == r.after.file
    ensures r.before in before && r.before.path !in ByPath(after)
    ensures r.after in after && r.after.path !in ByPath(before)
  {
    var removed, added := Missing(before, after), Missing(after, before);
    RenamesHold(removed, added, |added|, r);
    MissingHolds(before, after, r.before);
    MissingHolds(after, before, r.after);
  }

  // ----- the patch ----------------------------------------------------------------------------

  /** incomingOf: what a directory in the state `before` does not hold yet. */
  function Incoming(ch: Changes): seq<Entry> {
    ch.added + Afters(ch.changed) + Afters(ch.renamed)
  }

  /** What has to leave: removals and the sources of renames. */
  function Outgoing(ch: Changes): seq<Entry> {
    ch.removed + Befores(ch.renamed)
  }

  function Afters(cs: seq<Change>): (es: seq<Entry>)
    ensures |es| == |cs| && forall i | 0 <= i < |cs| :: es[i] == cs[i].after
  {
    seq(|cs|, i requires 0 <= i < |cs| => cs[i].after)
  }

  function Befores(cs: seq<Change>): (es: seq<Entry>)
    ensures |es| == |cs| && forall i | 0 <= i < |cs| :: es[i] == cs[i].before
  {
    seq(|cs|, i requires 0 <= i < |cs| => cs[i].before)
  }

  lemma InAfters(cs: seq<Change>, e: Entry)
    ensures e in Afters(cs) <==> exists c :: c in cs && c.after == e
  {
    if c :| c in cs && c.after == e {
      var i :| 0 <= i < |cs| && cs[i] == c;
      assert Afters(cs)[i] == e;
    }
    if e in Afters(cs) {
      var i :| 0 <= i < |cs| && Afters(cs)[i] == e;
      assert cs[i] in cs;
    }
  }

  lemma InBefores(cs: seq<Change>, e: Entry)
    ensures e in Befores(cs) <==> exists c :: c in cs && c.before == e
  {
    if c :| c in cs && c.before == e {
      var i :| 0 <= i < |cs| && cs[i] == c;
      assert Befores(cs)[i] == e;
    }
    if e in Befores(cs) {
      var i :| 0 <= i < |cs| && Befores(cs)[i] == e;
      assert cs[i] in cs;
    }
  }

  /** In a sorted manifest, membership and lookup are the same thing. */
  lemma SortedLookup(m: Manifest, e: Entry)
    requires Sorted(m)
    ensures e in m <==> At(ByPath(m), e.path) == Some(e)
  {
    if e in m {
      var i :| 0 <= i < |m| && m[i] == e;
      ByPathFinds(m, i);
    }
    if e.path in ByPath(m) {
      ByPathNamesItself(m, e.path);
    }
  }

  /** Exactly the entries of `after` that `before` does not already show are written. */
  lemma IncomingIsExact(before: Manifest, after: Manifest, e: Entry)
    requires Sorted(before) && Sorted(after)
    ensures e in Incoming(DiffOf(before, after)) <==> e in after && Content(before, e.path) != Some(e.file)
  {
    var ch := DiffOf(before, after);
    var removed, added := Missing(before, after), Missing(after, before);
    AddedSplits(removed, added, e);
    MissingHolds(after, before, e);
    InAfters(ch.renamed, e);
    InAfters(ch.changed, e);
    SortedLookup(after, e);
    if e.path in ByPath(before) {
      var b := ByPath(before)[e.path];
      ByPathNamesItself(before, e.path);
      ChangedHolds(before, after, Change(b, e));
    }
    if c :| c in ch.changed && c.after == e {
      ChangedHolds(before, after, c);
      ByPathNamesItself(after, c.before.path);
      SortedLookup(before, c.before);
    }
  }

  /** Exactly the entries whose path is gone are deleted. */
  lemma OutgoingIsExact(before: Manifest, after: Manifest, e: Entry)
    ensures e in Outgoing(DiffOf(before, after)) <==> e in before && e.path !in ByPath(after)
  {
    var ch := DiffOf(before, after);
    RemovedSplits(Missing(before, after), Missing(after, before), e);
    MissingHolds(before, after, e);
    InBefores(ch.renamed, e);
  }

  ghost predicate HasPath(es: seq<Entry>, p: Bytes) {
    exists e :: e in es && e.path == p
  }

  /**
   The patch touches exactly the paths on which the two manifests differ, and no path is both written
   and deleted.
   */
  lemma PatchTouchesOnlyDifferences(before: Manifest, after: Manifest, p: Bytes)
    requires Sorted(before) && Sorted(after)
    ensures var ch := DiffOf(before, after);
      && (HasPath(Incoming(ch), p) || HasPath(Outgoing(ch), p) <==> Content(before, p) != Content(after, p))
      && !(HasPath(Incoming(ch), p) && HasPath(Outgoing(ch), p))
  {
    var ch := DiffOf(before, after);
    if p in ByPath(after) {
      var e := ByPath(after)[p];
      ByPathNamesItself(after, p);
      IncomingIsExact(before, after, e);
    }
    if p in ByPath(before) {
      var e := ByPath(before)[p];
      ByPathNamesItself(before, p);
      OutgoingIsExact(before, after, e);
    }
    if HasPath(Incoming(ch), p) {
      var e :| e in Incoming(ch) && e.path == p;
      IncomingIsExact(before, after, e);
      SortedLookup(after, e);
    }
    if HasPath(Outgoing(ch), p) {
      var e :| e in Outgoing(ch) && e.path == p;
      OutgoingIsExact(before, after, e);
      SortedLookup(before, e);
    }
  }

  lemma DistinctPaths(m: Manifest, i: nat, j: nat)
    requires Sorted(m) && i < |m| && j < |m| && i != j
    ensures m[i].path != m[j].path
  {
    LessIsTotal(m[i].path, m[j].path);
    if i < j {
      assert Less(PathsOf(m)[i], PathsOf(m)[j]);
    } else {
      assert Less(PathsOf(m)[j], PathsOf(m)[i]);
    }
  }

  lemma {:induction false} MissingIsSorted(m: Manifest, other: Manifest)
    requires Sorted(m)
    ensures Sorted(Missing(m, other))
  {
    if m != [] {
      var init, last := m[..|m| - 1], m[|m| - 1];
      assert PathsOf(init) == PathsOf(m)[..|m| - 1];
      MissingIsSorted(init, other);
      forall i | 0 <= i < |Missing(init, other)| ensures Less(Missing(init, other)[i].path, last.path) {
        var e := Missing(init, other)[i];
        MissingHolds(init, other, e);
        var k :| 0 <= k < |init| && init[k] == e;
        assert Less(PathsOf(m)[k], PathsOf(m)[|m| - 1]);
      }
    }
  }

  /** Each list of a difference is in path order: additions and removals ... */
  lemma {:induction false} AddedIsSorted(removed: seq<Entry>, added: seq<Entry>, n: nat)
    requires Sorted(added) && n <= |added|
    ensures Sorted(StillAdded(removed, added, n))
  {
    if n > 0 {
      AddedIsSorted(removed, added, n - 1);
      var init := StillAdded(removed, added, n - 1);
      forall i | 0 <= i < |init| ensures Less(init[i].path, added[n - 1].path) {
        StillAddedHolds(removed, added, n - 1, init[i]);
        var k :| 0 <= k < n - 1 && added[k] == init[i];
        assert Less(PathsOf(added)[k], PathsOf(added)[n - 1]);
      }
    }
  }

  lemma {:induction false} RemovedIsSorted(removed: seq<Entry>, added: seq<Entry>, n: nat)
    requires Sorted(removed) && n <= |removed|
    ensures Sorted(StillRemoved(removed, added, n))
  {
    if n > 0 {
      RemovedIsSorted(removed, added, n - 1);
      var init := StillRemoved(removed, added, n - 1);
      forall i | 0 <= i < |init| ensures Less(init[i].path, removed[n - 1].path) {
        StillRemovedHolds(removed, added, n - 1, init[i]);
        var k :| 0 <= k < n - 1 && removed[k] == init[i];
        assert Less(PathsOf(removed)[k], PathsOf(removed)[n - 1]);
      }
    }
  }

  /** ... and renames, by their targets. */
  lemma {:induction false} RenamesAreSorted(removed: seq<Entry>, added: seq<Entry>, n: nat)
    requires Sorted(added) && n <= |added|
    ensures Sorted(Afters(Renames(removed, added, n)))
  {
    if n > 0 {
      RenamesAreSorted(removed, added, n - 1);
      var init := Renames(removed, added, n - 1);
      forall i | 0 <= i < |init| ensures Less(init[i].after.path, added[n - 1].path) {
        RenamesHold(removed, added, n - 1, init[i]);
        var k :| 0 <= k < n - 1 && added[k] == init[i].after;
        assert Less(PathsOf(added)[k], PathsOf(added)[n - 1]);
      }
    }
  }

  /** ... and changes, by the path both sides share. */
  lemma {:induction false} ChangesAreSorted(before: Manifest, after: Manifest)
    requires Sorted(before)
    ensures Sorted(Afters(ChangedIn(before, after)))
  {
    if before != [] {
      var init, last := before[..|before| - 1], before[|before| - 1];
      assert PathsOf(init) == PathsOf(before)[..|before| - 1];
      ChangesAreSorted(init, after);
      var changes := ChangedIn(init, after);
      forall i | 0 <= i < |changes| ensures Less(changes[i].after.path, last.path) {
        ChangedHolds(init, after, changes[i]);
        ByPathNamesItself(after, changes[i].before.path);
        var k :| 0 <= k < |init| && init[k] == changes[i].before;
        assert Less(PathsOf(before)[k], PathsOf(before)[|before| - 1]);
      }
      if last.path in ByPath(after) {
        ByPathNamesItself(after, last.path);
      }
    }
  }

  lemma DiffIsSorted(before: Manifest, after: Manifest)
    requires Sorted(before) && Sorted(after)
    ensures var ch := DiffOf(before, after);
            Sorted(ch.added) && Sorted(ch.removed) && Sorted(Afters(ch.changed)) && Sorted(Afters(ch.renamed))
  {
    var removed, added := Missing(before, after), Missing(after, before);
    MissingIsSorted(before, after);
    MissingIsSorted(after, before);
    AddedIsSorted(removed, added, |added|);
    RemovedIsSorted(removed, added, |removed|);
    ChangesAreSorted(before, after);
    RenamesAreSorted(removed, added, |added|);
  }

  /** An added path is not the target of a rename. */
  lemma AddedIsNoTarget(before: Manifest, after: Manifest, e: Entry, r: Change)
    requires Sorted(after)
    requires e in DiffOf(before, after).added && r in DiffOf(before, after).renamed
    ensures e.path != r.after.path
  {
    var removed, added := Missing(before, after), Missing(after, before);
    MissingIsSorted(after, before);
    StillAddedHolds(removed, added, |added|, e);
    RenamesHold(removed, added, |added|, r);
    var j :| 0 <= j < |added| && added[j] == e && !IsRename(removed, added, j);
    var k :| 0 <= k < |added| && IsRename(removed, added, k) && added[k] == r.after;
    DistinctPaths(added, j, k);
  }

  /** A removed path is not the source of a rename. */
  lemma RemovedIsNoSource(before: Manifest, after: Manifest, e: Entry, r: Change)
    requires Sorted(before)
    requires e in DiffOf(before, after).removed && r in DiffOf(before, after).renamed
    ensures e.path != r.before.path
  {
    var removed, added := Missing(before, after), Missing(after, before);
    MissingIsSorted(before, after);
    StillRemovedHolds(removed, added, |removed|, e);
    RenamesHold(removed, added, |added|, r);
    var i :| 0 <= i < |removed| && removed[i] == e && !Consumed(removed, added, |added|, i);
    var j :| 0 <= j < |added| && IsRename(removed, added, j)
      && r == Change(removed[Partner(removed, added, j)], added[j]);
    ConsumedByOne(removed, added, i);
    DistinctPaths(removed, i, Partner(removed, added, j));
  }

  /** A changed path is on both sides, so it is in none of the other three classes. */
  lemma ChangedIsOnBothSides(before: Manifest, after: Manifest, c: Change, e: Entry)
    requires c in DiffOf(before, after).changed
    ensures c.before in before && c.after in after && c.before.path == c.after.path && c.before.file != c.after.file
    ensures e in Missing(before, after) + Missing(after, before) && Sorted(before) && Sorted(after) ==>
            e.path != c.after.path
  {
    ChangedHolds(before, after, c);
    ByPathNamesItself(after, c.before.path);
    MissingHolds(before, after, e);
    MissingHolds(after, before, e);
    var k :| 0 <= k < |before| && before[k] == c.before;
    ByPathCovers(before, k);
  }

  // ----- the difference, apart from how it is computed ----------------------------------------

  /** The entries whose path the other manifest does not have. */
  predicate OnlyIn(e: Entry, m: Manifest, other: Manifest) {
    e in m && forall x | x in other :: x.path != e.path
  }

  /** Of the paths of one content, as many are gone before the one as have come before the other. */
  ghost predicate KthToKth(gone: seq<Entry>, come: seq<Entry>, r: Change) {
    exists i: nat, j: nat :: PairsAt(gone, come, r, i, j)
  }

  predicate PairsAt(gone: seq<Entry>, come: seq<Entry>, r: Change, i: nat, j: nat) {
    && i < |gone| && j < |come| && gone[i] == r.before && come[j] == r.after
    && r.before.file == r.after.file && Rank(gone, i) == Rank(come, j)
  }

  /** Every path that came or went is in exactly one class, and a rename uses it up once. */
  ghost predicate Partitions(before: Manifest, after: Manifest, ch: Changes) {
    && (forall e :: OnlyIn(e, after, before) <==> e in ch.added || exists r :: r in ch.renamed && r.after == e)
    && (forall e :: OnlyIn(e, before, after) <==> e in ch.removed || exists r :: r in ch.renamed && r.before == e)
    && (forall e, r | e in ch.added && r in ch.renamed :: r.after != e)
    && (forall e, r | e in ch.removed && r in ch.renamed :: r.before != e)
    && (forall r, r' | r in ch.renamed && r' in ch.renamed && (r.before == r'.before || r.after == r'.after) :: r == r')
  }

  /** Renames are paired in path order among the entries of one content, and no pair is missed. */
  ghost predicate PairsContents(before: Manifest, after: Manifest, ch: Changes) {
    && (forall r | r in ch.renamed :: KthToKth(Missing(before, after), Missing(after, before), r))
    && (forall a, r | a in ch.added && r in ch.removed :: a.file != r.file)
  }

  ghost predicate ListsChanges(before: Manifest, after: Manifest, ch: Changes) {
    forall c :: c in ch.changed <==>
      && c.before in before && c.after in after && c.before.path == c.after.path && c.before.file != c.after.file
  }

  predicate InOrder(ch: Changes) {
    Sorted(ch.added) && Sorted(ch.removed) && Sorted(Afters(ch.changed)) && Sorted(Afters(ch.renamed))
  }

  ghost predicate IsDiff(before: Manifest, after: Manifest, ch: Changes) {
    && Partitions(before, after, ch) && PairsContents(before, after, ch)
    && ListsChanges(before, after, ch) && InOrder(ch)
  }

  lemma MissingIsOnlyIn(m: Manifest, other: Manifest, e: Entry)
    ensures e in Missing(m, other) <==> OnlyIn(e, m, other)
  {
    MissingHolds(m, other, e);
    if e.path in ByPath(other) {
      ByPathNamesItself(other, e.path);
    } else if x :| x in other && x.path == e.path {
      var i :| 0 <= i < |other| && other[i] == x;
      ByPathCovers(other, i);
      assert false;
    }
  }

  lemma DiffPairs(before: Manifest, after: Manifest)
    ensures PairsContents(before, after, DiffOf(before, after))
  {
    var ch, gone, come := DiffOf(before, after), Missing(before, after), Missing(after, before);
    forall r | r in ch.renamed ensures KthToKth(gone, come, r) {
      RenamesHold(gone, come, |come|, r);
      var j :| 0 <= j < |come| && IsRename(gone, come, j) && r == Change(gone[Partner(gone, come, j)], come[j]);
      assert PairsAt(gone, come, r, Partner(gone, come, j), j);
    }
    forall a, r | a in ch.added && r in ch.removed ensures a.file != r.file {
      NoContentBothAddedAndRemoved(gone, come, a, r);
    }
  }

  lemma DiffPartitions(before: Manifest, after: Manifest)
    requires Sorted(before) && Sorted(after)
    ensures Partitions(before, after, DiffOf(before, after))
  {
    var ch, gone, come := DiffOf(before, after), Missing(before, after), Missing(after, before);
    forall e ensures OnlyIn(e, after, before) <==> e in ch.added || exists r :: r in ch.renamed && r.after == e {
      MissingIsOnlyIn(after, before, e);
      AddedSplits(gone, come, e);
    }
    forall e ensures OnlyIn(e, before, after) <==> e in ch.removed || exists r :: r in ch.renamed && r.before == e {
      MissingIsOnlyIn(before, after, e);
      RemovedSplits(gone, come, e);
    }
    forall e, r | e in ch.added && r in ch.renamed ensures r.after != e {
      AddedIsNoTarget(before, after, e, r);
    }
    forall e, r | e in ch.removed && r in ch.renamed ensures r.before != e {
      RemovedIsNoSource(before, after, e, r);
    }
    MissingIsSorted(before, after);
    MissingIsSorted(after, before);
    forall r, r' | r in ch.renamed && r' in ch.renamed && (r.before == r'.before || r.after == r'.after)
      ensures r == r'
    {
      assert KthToKth(gone, come, r) && KthToKth(gone, come, r') by {
        DiffPairs(before, after);
      }
      PairsOnce(gone, come, r, r');
    }
  }

  /** Ranks decide: a pair is known by either of its entries. */
  lemma PairsOnce(gone: seq<Entry>, come: seq<Entry>, r: Change, r': Change)
    requires Sorted(gone) && Sorted(come) && KthToKth(gone, come, r) && KthToKth(gone, come, r')
    requires r.before == r'.before || r.after == r'.after
    ensures r == r'
  {
    var i: nat, j: nat :| PairsAt(gone, come, r, i, j);
    var i': nat, j': nat :| PairsAt(gone, come, r', i', j');
    if i != i' && j != j' {
      if r.before == r'.before {
        DistinctPaths(gone, i, i');
      } else {
        DistinctPaths(come, j, j');
      }
      assert false;
    }
    var sources, targets := Occurrences(gone, r.before.file), Occurrences(come, r.before.file);
    assert sources[Rank(gone, i)] == i && sources[Rank(gone, i')] == i';
    assert targets[Rank(come, j)] == j && targets[Rank(come, j')] == j';
  }

  lemma DiffListsChanges(before: Manifest, after: Manifest)
    requires Sorted(before) && Sorted(after)
    ensures ListsChanges(before, after, DiffOf(before, after))
  {
    forall c ensures c in DiffOf(before, after).changed <==>
      && c.before in before && c.after in after && c.before.path == c.after.path && c.before.file != c.after.file
    {
      ChangedHolds(before, after, c);
      SortedLookup(after, c.after);
      if c.before.path in ByPath(after) {
        ByPathNamesItself(after, c.before.path);
      }
    }
  }

  /** What Diff computes is the difference ... */
  lemma DiffOfIsDiff(before: Manifest, after: Manifest)
    requires Sorted(before) && Sorted(after)
    ensures IsDiff(before, after, DiffOf(before, after))
  {
    DiffPartitions(before, after);
    DiffPairs(before, after);
    DiffListsChanges(before, after);
    DiffIsSorted(before, after);
  }

  lemma PairIsRename(gone: seq<Entry>, come: seq<Entry>, r: Change)
    requires KthToKth(gone, come, r)
    ensures r in Renames(gone, come, |come|)
  {
    var i: nat, j: nat :| PairsAt(gone, come, r, i, j);
    assert Occurrences(gone, come[j].file)[Rank(gone, i)] == i;
    assert IsRename(gone, come, j) && Partner(gone, come, j) == i;
    RenamesHold(gone, come, |come|, r);
  }

  lemma RenameIsPair(gone: seq<Entry>, come: seq<Entry>, r: Change)
    requires r in Renames(gone, come, |come|)
    ensures KthToKth(gone, come, r)
  {
    RenamesHold(gone, come, |come|, r);
    var j :| 0 <= j < |come| && IsRename(gone, come, j) && r == Change(gone[Partner(gone, come, j)], come[j]);
    assert PairsAt(gone, come, r, Partner(gone, come, j), j);
  }

  /** No pair of equal rank is missed. */
  lemma PairIsListed(before: Manifest, after: Manifest, ch: Changes, r: Change)
    requires Sorted(before) && Sorted(after) && Partitions(before, after, ch) && PairsContents(before, after, ch)
    requires KthToKth(Missing(before, after), Missing(after, before), r)
    ensures r in ch.renamed
  {
    var gone, come := Missing(before, after), Missing(after, before);
    MissingIsSorted(before, after);
    MissingIsSorted(after, before);
    MissingIsOnlyIn(before, after, r.before);
    MissingIsOnlyIn(after, before, r.after);
    if r' :| r' in ch.renamed && (r'.before == r.before || r'.after == r.after) {
      PairsOnce(gone, come, r, r');
    } else {
      assert false;
    }
  }

  lemma SortedEntriesAgree(xs: seq<Entry>, ys: seq<Entry>)
    requires Sorted(xs) && Sorted(ys) && forall e :: e in xs <==> e in ys
    ensures xs == ys
  {
    forall p ensures p in PathsOf(xs) <==> p in PathsOf(ys) {
      if p in PathsOf(xs) {
        var i :| 0 <= i < |xs| && PathsOf(xs)[i] == p;
        assert xs[i] in ys;
        var j :| 0 <= j < |ys| && ys[j] == xs[i];
        assert PathsOf(ys)[j] == p;
      }
      if p in PathsOf(ys) {
        var i :| 0 <= i < |ys| && PathsOf(ys)[i] == p;
        assert ys[i] in xs;
        var j :| 0 <= j < |xs| && xs[j] == ys[i];
        assert PathsOf(xs)[j] == p;
      }
    }
    AscendingIsUnique(PathsOf(xs), PathsOf(ys));
    forall i | 0 <= i < |xs| ensures xs[i] == ys[i] {
      assert xs[i] in ys;
      var j :| 0 <= j < |ys| && ys[j] == xs[i];
      assert PathsOf(ys)[j] == PathsOf(xs)[i] == PathsOf(ys)[i];
      if j != i {
        DistinctPaths(ys, i, j);
      }
    }
  }

  lemma SortedChangesAgree(xs: seq<Change>, ys: seq<Change>)
    requires Sorted(Afters(xs)) && Sorted(Afters(ys)) && forall c :: c in xs <==> c in ys
    ensures xs == ys
  {
    forall e ensures e in Afters(xs) <==> e in Afters(ys) {
      InAfters(xs, e);
      InAfters(ys, e);
    }
    SortedEntriesAgree(Afters(xs), Afters(ys));
    forall i | 0 <= i < |xs| ensures xs[i] == ys[i] {
      assert xs[i] in ys;
      var j :| 0 <= j < |ys| && ys[j] == xs[i];
      assert Afters(ys)[j] == Afters(xs)[i] == Afters(ys)[i];
      if j != i {
        DistinctPaths(Afters(ys), i, j);
      }
    }
  }

  /** ... and nothing else is. */
  lemma DiffIsUnique(before: Manifest, after: Manifest, ch: Changes)
    requires Sorted(before) && Sorted(after)
    ensures IsDiff(before, after, ch) <==> ch == DiffOf(before, after)
  {
    DiffOfIsDiff(before, after);
    if IsDiff(before, after, ch) {
      var d, gone, come := DiffOf(before, after), Missing(before, after), Missing(after, before);
      forall r ensures r in ch.renamed <==> r in d.renamed {
        if r in ch.renamed {
          PairIsRename(gone, come, r);
        }
        if r in d.renamed {
          RenameIsPair(gone, come, r);
          PairIsListed(before, after, ch, r);
        }
      }
      SameRestAgrees(before, after, ch, d);
    }
  }

  lemma SameRestAgrees(before: Manifest, after: Manifest, ch: Changes, d: Changes)
    requires IsDiff(before, after, ch) && IsDiff(before, after, d) && forall r :: r in ch.renamed <==> r in d.renamed
    ensures ch == d
  {
    forall e ensures e in ch.added <==> e in d.added {
      assert e in ch.added <==> OnlyIn(e, after, before) && !exists r :: r in ch.renamed && r.after == e;
      assert e in d.added <==> OnlyIn(e, after, before) && !exists r :: r in d.renamed && r.after == e;
    }
    forall e ensures e in ch.removed <==> e in d.removed {
      assert e in ch.removed <==> OnlyIn(e, before, after) && !exists r :: r in ch.renamed && r.before == e;
      assert e in d.removed <==> OnlyIn(e, before, after) && !exists r :: r in d.renamed && r.before == e;
    }
    forall c ensures c in ch.changed <==> c in d.changed {
    }
    SortedEntriesAgree(ch.added, d.added);
    SortedEntriesAgree(ch.removed, d.removed);
    SortedChangesAgree(ch.changed, d.changed);
    SortedChangesAgree(ch.renamed, d.renamed);
  }

  lemma AftersSnoc(init: seq<Change>, last: Change, id: Id)
    ensures Count(Afters(init + [last]), id) == Count(Afters(init), id) + if last.after.file == id then 1 else 0
  {
    assert Afters(init + [last]) == Afters(init) + [last.after];
    assert (Afters(init) + [last.after])[..|init|] == Afters(init);
  }

  /** Of every content as many paths are renamed as can be: the smaller of the two counts. */
  lemma {:induction false} RenamesAreCounted(removed: seq<Entry>, added: seq<Entry>, n: nat, id: Id)
    requires n <= |added|
    ensures Count(Afters(Renames(removed, added, n)), id) == Min(Count(added[..n], id), Count(removed, id))
  {
    if n > 0 {
      RenamesAreCounted(removed, added, n - 1, id);
      CountSnoc(added, n - 1, id);
      if IsRename(removed, added, n - 1) {
        AftersSnoc(Renames(removed, added, n - 1), Change(removed[Partner(removed, added, n - 1)], added[n - 1]), id);
      }
    }
  }

  lemma RenamesOfContent(before: Manifest, after: Manifest, id: Id)
    ensures Count(Afters(DiffOf(before, after).renamed), id) ==
            Min(Count(Missing(before, after), id), Count(Missing(after, before), id))
  {
    var gone, come := Missing(before, after), Missing(after, before);
    RenamesAreCounted(gone, come, |come|, id);
    assert come[..|come|] == come;
  }
}
