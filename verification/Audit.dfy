/** The state-delta audit: `audit_range` submits blocks batch by batch, shown to be a fold over heights. */
module Audit {
  import opened Basics

  // Every block of a range is submitted to a second node, and the receipt it regenerates is compared with the
  // stored one.

  /** A state delta, up to the order of its keys: what `canonical` compares. */
  type Delta = string

  /** A stored receipt; an absent root is "". */
  datatype Receipt = Receipt(root: string, deltas: seq<Delta>, txs: seq<seq<Delta>>)

  /** A regenerated receipt, where an absent root differs from an empty one. */
  datatype Regenerated = Regenerated(root: Option<string>, deltas: seq<Delta>, txs: seq<seq<Delta>>)

  /** A block of the source, with the height it states itself, if any. */
  datatype Item = Item(stated: Option<int>, previousRoot: string, receipt: Option<Receipt>)

  // ----- comparing two receipts -----

  /** `first_list_difference`: None when the lists are the same. */
  method FirstListDifference(left: seq<Delta>, right: seq<Delta>) returns (r: Option<nat>)
    ensures r.None? <==> left == right
    ensures r.Some? ==> r.value <= |left| && r.value <= |right| && left[..r.value] == right[..r.value]
    ensures r.Some? && r.value < |left| && r.value < |right| ==> left[r.value] != right[r.value]
  {
    var limit := if |left| < |right| then |left| else |right|;
    for index := 0 to limit
      invariant left[..index] == right[..index]
    {
      if left[index] != right[index] { return Some(index); }
    }
    if |left| != |right| { return Some(limit); }
    return None;
  }

  /** `compare_transaction_deltas`: equal, or the index of the first mismatch. */
  method CompareTransactionDeltas(stored: seq<seq<Delta>>, regenerated: seq<seq<Delta>>)
      returns (same: bool, first: Option<nat>)
    ensures same <==> stored == regenerated
    ensures same <==> first.None?
    ensures !same && |stored| == |regenerated| ==>
      first.value < |stored| && stored[first.value] != regenerated[first.value]
    ensures !same && |stored| == |regenerated| ==> stored[..first.value] == regenerated[..first.value]
    ensures |stored| != |regenerated| ==> first == Some(if |stored| < |regenerated| then |stored| else |regenerated|)
  {
    if |stored| != |regenerated| {
      return false, Some(if |stored| < |regenerated| then |stored| else |regenerated|);
    }
    for index := 0 to |stored|
      invariant stored[..index] == regenerated[..index]
    {
      if stored[index] != regenerated[index] { return false, Some(index); }
    }
    return true, None;
  }

  function StoredOf(item: Item): Receipt
  {
    if item.receipt.Some? then item.receipt.value else Receipt("", [], [])
  }

  /** The two receipts agree: roots where both are known, and all deltas in order. */
  predicate Agree(stored: Receipt, regenerated: Regenerated)
  {
    && (stored.root == "" || regenerated.root in {None, Some(""), Some(stored.root)})
    && stored.deltas == regenerated.deltas && stored.txs == regenerated.txs
  }

  /** `classify_comparison`; `ok` is its status. */
  method ClassifyComparison(stored: Receipt, regenerated: Regenerated) returns (ok: bool, missingStoredRoot: bool)
    ensures ok <==> Agree(stored, regenerated)
    ensures missingStoredRoot <==> stored.root == ""
  {
    var regeneratedRoot := if regenerated.root.Some? then regenerated.root.value else "";
    var comparable := stored.root != "" && regeneratedRoot != "";
    var merkleMatch := if comparable then stored.root == regeneratedRoot else false;
    var difference := FirstListDifference(stored.deltas, regenerated.deltas);
    var txsMatch, firstTx := CompareTransactionDeltas(stored.txs, regenerated.txs);
    ok := (!comparable || merkleMatch) && difference.None? && txsMatch;
    missingStoredRoot := stored.root == "";
  }

  // ----- one block -----

  datatype Kind = MissingReceipt | PreviousRoot | SubmitFailed | Mismatch

  /** The height of the audit node's head, as the audit prints it: as queried at the start, or that of the last
      block submitted. */
  datatype Top = AtStart | Submitted(height: int)

  /** What the records about a block say of the place: its height, and the head before it is submitted. */
  datatype Place = Place(height: int, head: Top)

  /** A record; only those about the previous root print the head. */
  datatype Problem = Problem(height: int, kind: Kind, head: Option<Top>)

  function ProblemOf(place: Place, kind: Kind): Problem
  {
    Problem(place.height, kind, if kind == PreviousRoot then Some(place.head) else None)
  }

  datatype State = State(
    checked: nat, mismatches: nat, missing: nat, noRoot: nat, failures: nat,
    first: Option<Problem>, problems: seq<Problem>, head: string, top: Top)

  // What can be wrong before a block is submitted, and after.

  function EarlyFaults(item: Item, head: string): seq<Kind>
  {
    var mismatch := item.previousRoot != "" && head != "" && item.previousRoot != head;
    if item.receipt.None? then (if mismatch then [MissingReceipt, PreviousRoot] else [MissingReceipt])
    else if mismatch then [PreviousRoot] else []
  }

  function LateFaults(item: Item, reply: Option<Regenerated>): (r: seq<Kind>)
    ensures |r| <= 1
  {
    if reply.None? then [SubmitFailed] else if !Agree(StoredOf(item), reply.value) then [Mismatch] else []
  }

  /** Everything wrong with one block, given the head root before it and what the node answered. */
  function Faults(item: Item, reply: Option<Regenerated>, head: string): seq<Kind>
  {
    EarlyFaults(item, head) + LateFaults(item, reply)
  }

  /** What is reported: all of it, or only the first when the audit stops there. */
  function Reported(goOn: bool, faults: seq<Kind>): seq<Kind>
  {
    if goOn || faults == [] then faults else faults[..1]
  }

  /** Is the block compared? Not when the audit has stopped before. */
  predicate Compared(goOn: bool, item: Item, reply: Option<Regenerated>, head: string)
  {
    && reply.Some?
    && (goOn || (item.receipt.Some? && !(item.previousRoot != "" && head != "" && item.previousRoot != head)))
  }

  /** One more problem, and its counter. */
  function Report(st: State, problem: Problem): State
  {
    st.(mismatches := st.mismatches + (if problem.kind == PreviousRoot || problem.kind == Mismatch then 1 else 0),
        missing := st.missing + (if problem.kind == MissingReceipt then 1 else 0),
        failures := st.failures + (if problem.kind == SubmitFailed then 1 else 0),
        first := if st.first.None? then Some(problem) else st.first,
        problems := st.problems + [problem])
  }

  function ReportAll(st: State, place: Place, kinds: seq<Kind>): State
  {
    if kinds == [] then st
    else Report(ReportAll(st, place, kinds[..|kinds| - 1]), ProblemOf(place, kinds[|kinds| - 1]))
  }

  function After(st: State, goOn: bool, height: int, item: Item, reply: Option<Regenerated>): State
  {
    var compared := Compared(goOn, item, reply, st.head);
    var s := st.(
      checked := st.checked + (if compared then 1 else 0),
      noRoot := st.noRoot + (if compared && StoredOf(item).root == "" then 1 else 0),
      head := if compared && reply.value.root.Some? then reply.value.root.value else st.head,
      top := if compared then Submitted(height) else st.top);
    ReportAll(s, Place(height, st.top), Reported(goOn, Faults(item, reply, st.head)))
  }

  predicate Stops(st: State, goOn: bool, item: Item, reply: Option<Regenerated>)
  {
    !goOn && Faults(item, reply, st.head) != []
  }

  lemma {:induction false} ReportConcat(st: State, place: Place, a: seq<Kind>, b: seq<Kind>)
    ensures ReportAll(st, place, a + b) == ReportAll(ReportAll(st, place, a), place, b)
  {
    if b == [] {
      assert a + b == a;
    } else {
      assert (a + b)[..|a + b| - 1] == a + b[..|b| - 1];
      ReportConcat(st, place, a, b[..|b| - 1]);
    }
  }

  /** A state with the parts that do not record problems taken from another one. */
  function Beside(st: State, other: State): State
  {
    st.(checked := other.checked, noRoot := other.noRoot, head := other.head, top := other.top)
  }

  /** The reports touch neither the other counters nor the head. */
  lemma {:induction false} ReportOnly(st: State, place: Place, kinds: seq<Kind>, other: State)
    ensures ReportAll(Beside(st, other), place, kinds) == Beside(ReportAll(st, place, kinds), other)
    ensures Beside(ReportAll(st, place, kinds), st) == ReportAll(st, place, kinds)
  {
    if kinds != [] { ReportOnly(st, place, kinds[..|kinds| - 1], other); }
  }

  lemma ReportStep(st: State, place: Place, kinds: seq<Kind>, kind: Kind)
    ensures ReportAll(st, place, []) == st
    ensures ReportAll(st, place, kinds + [kind]) == Report(ReportAll(st, place, kinds), ProblemOf(place, kind))
  {
    assert (kinds + [kind])[..|kinds|] == kinds;
  }

  /** The checks before the block is submitted. */
  method CheckBefore(st0: State, goOn: bool, height: int, item: Item) returns (st: State, stop: bool)
    ensures st == ReportAll(st0, Place(height, st0.top), Reported(goOn, EarlyFaults(item, st0.head)))
    ensures stop <==> !goOn && EarlyFaults(item, st0.head) != []
  {
    hide ReportAll, Report;
    st := st0;
    var place := Place(height, st.top);
    ghost var found: seq<Kind> := [];
    ReportStep(st0, place, [], MissingReceipt);
    if item.receipt.None? {
      st := Report(st, ProblemOf(place, MissingReceipt));
      found := [] + [MissingReceipt];
      assert EarlyFaults(item, st0.head)[..1] == found;
      if !goOn { return st, true; }
    }
    if item.previousRoot != "" && st0.head != "" && item.previousRoot != st0.head {
      ReportStep(st0, place, found, PreviousRoot);
      st := Report(st, ProblemOf(place, PreviousRoot));
      found := found + [PreviousRoot];
      assert EarlyFaults(item, st0.head) == found;
      assert !goOn ==> found[..1] == found;
      if !goOn { return st, true; }
    }
    assert EarlyFaults(item, st0.head) == found;
    stop := false;
  }

  /** Submission and comparison; `place` is only for the records. */
  method SubmitAndCompare(st0: State, goOn: bool, place: Place, item: Item, reply: Option<Regenerated>)
    returns (st: State, stop: bool)
    ensures st == ReportAll(Passed(st0, place.height, item, reply), place, LateFaults(item, reply))
    ensures stop <==> !goOn && LateFaults(item, reply) != []
  {
    st := st0;
    assert forall k: Kind :: [k][..0] == [];
    if reply.None? {
      return Report(st, ProblemOf(place, SubmitFailed)), !goOn;
    }
    if reply.value.root.Some? { st := st.(head := reply.value.root.value); }
    st := st.(top := Submitted(place.height));
    var ok, missingStoredRoot := ClassifyComparison(StoredOf(item), reply.value);
    st := st.(checked := st.checked + 1);
    if missingStoredRoot { st := st.(noRoot := st.noRoot + 1); }
    if !ok {
      st := Report(st, ProblemOf(place, Mismatch));
      if !goOn { return st, true; }
    }
    stop := false;
  }

  /** The counters and the head after a submitted block. */
  function Passed(st: State, height: int, item: Item, reply: Option<Regenerated>): State
  {
    if reply.None? then st else
      st.(checked := st.checked + 1, noRoot := st.noRoot + (if StoredOf(item).root == "" then 1 else 0),
          head := if reply.value.root.Some? then reply.value.root.value else st.head, top := Submitted(height))
  }

  lemma PassedBeside(st: State, place: Place, kinds: seq<Kind>, height: int, item: Item, reply: Option<Regenerated>)
    ensures Passed(ReportAll(st, place, kinds), height, item, reply) ==
      ReportAll(Passed(st, height, item, reply), place, kinds)
  {
    hide ReportAll;
    var passed := Passed(st, height, item, reply);
    ReportOnly(st, place, kinds, passed);
    assert passed == Beside(st, passed);
  }

  /** The body of the inner loop. */
  method AuditItem(st0: State, goOn: bool, height: int, item: Item, reply: Option<Regenerated>)
    returns (st: State, stop: bool)
    ensures st == After(st0, goOn, height, item, reply)
    ensures stop <==> Stops(st0, goOn, item, reply)
  {
    hide ReportAll, Agree;
    var (early, late) := (EarlyFaults(item, st0.head), LateFaults(item, reply));
    var place := Place(height, st0.top);
    st, stop := CheckBefore(st0, goOn, height, item);
    if stop {
      assert (early + late)[..1] == early[..1];
      assert st == After(st0, goOn, height, item, reply);
    } else {
      st, stop := SubmitAndCompare(st, goOn, place, item, reply);
      assert Reported(goOn, early + late) == early + late;
      assert Compared(goOn, item, reply, st0.head) <==> reply.Some?;
      PassedBeside(st0, place, early, height, item, reply);
      ReportConcat(Passed(st0, height, item, reply), place, early, late);
    }
  }

  // ----- the whole range -----

  /** A run: its arguments, the source's blocks, and what the audit node answers when they are submitted
      in order. */
  datatype World = World(goOn: bool, size: nat, start: int, end: int, head: string,
                         blocks: int -> Item, replies: int -> Option<Regenerated>)

  function Initial(w: World): State { State(0, 0, 0, 0, 0, None, [], w.head, AtStart) }

  /** The first height of the batch that h is in, when batches of `size` start at `from`. */
  function FirstOfBatch(from: int, size: nat, h: int): (r: int)
    requires size > 0
    ensures from <= h ==> from <= r <= h < r + size
    decreases h - from
  {
    if h < from + size then from else FirstOfBatch(from + size, size, h)
  }

  /** The height in the records: the block's own, or else the first one of its batch. */
  function HeightOf(w: World, h: int): int
    requires w.size > 0
  {
    if w.blocks(h).stated.Some? then w.blocks(h).stated.value else FirstOfBatch(w.start, w.size, h)
  }

  /** The audit of the heights from `start` to `last`, one by one, and whether it has stopped. */
  function Run(w: World, last: int): (State, bool)
    requires w.size > 0
    decreases last - w.start + 1
  {
    if last < w.start then (Initial(w), false) else
      var (st, stopped) := Run(w, last - 1);
      if stopped then (st, true) else
        (After(st, w.goOn, HeightOf(w, last), w.blocks(last), w.replies(last)),
         Stops(st, w.goOn, w.blocks(last), w.replies(last)))
  }

  datatype Summary = Summary(pass: bool, checked: nat, mismatches: nat, missing: nat, noRoot: nat, failures: nat,
                             first: Option<Problem>, problems: seq<Problem>, truncated: nat)

  /** `build_audit_summary`, but for times and file names. */
  function BuildAuditSummary(st: State, maxProblems: nat): Summary
  {
    Summary(st.mismatches == 0 && st.missing == 0 && st.failures == 0,
            st.checked, st.mismatches, st.missing, st.noRoot, st.failures, st.first,
            if |st.problems| <= maxProblems then st.problems else st.problems[..maxProblems],
            if |st.problems| <= maxProblems then 0 else |st.problems| - maxProblems)
  }

  datatype Checkpoint = Checkpoint(last: int, next: int, state: State)

  /** `get_source_batch` answers with the blocks of the range. */
  ghost predicate HoldsRange(w: World, batch: (int, int) -> seq<Item>)
  {
    forall h, count :: w.start <= h && 0 < count && h + count - 1 <= w.end ==> Covers(w, batch(h, count), h, count)
  }

  ghost predicate Covers(w: World, items: seq<Item>, h: int, count: int)
  {
    |items| == count && forall i :: 0 <= i < count ==> items[i] == w.blocks(h + i)
  }

  lemma {:induction false} StoppedStays(w: World, h: int, last: int)
    requires w.size > 0 && h <= last && Run(w, h).1
    ensures Run(w, last) == Run(w, h)
    decreases last - h
  {
    hide After, Stops, HeightOf;
    if h < last {
      StoppedStays(w, h, last - 1);
      assert last >= w.start;
    }
  }

  /** From one first height to the next, the batch is the same. */
  lemma {:induction false} SameBatch(from: int, size: nat, h: int, i: nat)
    requires size > 0 && from <= h && FirstOfBatch(from, size, h) == h
    ensures i < size ==> FirstOfBatch(from, size, h + i) == h
    ensures FirstOfBatch(from, size, h + size) == h + size
    decreases h - from
  {
    if h >= from + size { SameBatch(from + size, size, h, i); }
  }

  /** The checkpoints follow one another in batches, and each holds exactly the fold up to its height. */
  ghost predicate CheckpointsOk(w: World, checkpoints: seq<Checkpoint>)
    requires w.size > 0
  {
    forall k :: 0 <= k < |checkpoints| ==>
      && Run(w, checkpoints[k].last) == (checkpoints[k].state, false)
      && checkpoints[k].next == checkpoints[k].last + 1
      && var first := if k == 0 then w.start else checkpoints[k - 1].next;
        checkpoints[k].last == if first + w.size - 1 < w.end then first + w.size - 1 else w.end
  }

  lemma AddCheckpoint(w: World, checkpoints: seq<Checkpoint>, c: Checkpoint)
    requires w.size > 0 && CheckpointsOk(w, checkpoints)
    requires Run(w, c.last) == (c.state, false) && c.next == c.last + 1
    requires var first := if checkpoints == [] then w.start else checkpoints[|checkpoints| - 1].next;
      c.last == if first + w.size - 1 < w.end then first + w.size - 1 else w.end
    ensures CheckpointsOk(w, checkpoints + [c])
  {
    hide Run;
    var r := checkpoints + [c];
    assert forall k :: 0 <= k < |checkpoints| ==> r[k] == checkpoints[k];
    assert r[|checkpoints|] == c;
  }

  lemma UseRange(w: World, batch: (int, int) -> seq<Item>, h: int, count: int)
    requires w.start <= h && 0 < count && h + count - 1 <= w.end
    ensures HoldsRange(w, batch) ==> Covers(w, batch(h, count), h, count)
  {
  }

  lemma RunStep(w: World, last: int)
    requires w.size > 0 && w.start <= last && !Run(w, last - 1).1
    ensures var st := Run(w, last - 1).0;
      Run(w, last) == (After(st, w.goOn, HeightOf(w, last), w.blocks(last), w.replies(last)),
                       Stops(st, w.goOn, w.blocks(last), w.replies(last)))
  {
  }

  /** The inner loop. */
  method AuditBatch(w: World, st0: State, items: seq<Item>, height: int) returns (st: State, stop: bool)
    requires w.size > 0 && w.start <= height && FirstOfBatch(w.start, w.size, height) == height && |items| <= w.size
    ensures Covers(w, items, height, |items|) && Run(w, height - 1) == (st0, false) ==>
      (if stop then exists h :: height <= h < height + |items| && Run(w, h) == (st, true)
       else Run(w, height + |items| - 1) == (st, false))
  {
    hide After, Stops, Run, FirstOfBatch;
    st := st0;
    for i := 0 to |items|
      invariant Covers(w, items, height, |items|) && Run(w, height - 1) == (st0, false) ==>
        Run(w, height + i - 1) == (st, false)
    {
      var blockHeight := if items[i].stated.Some? then items[i].stated.value else height;
      SameBatch(w.start, w.size, height, i);
      if Run(w, height + i - 1) == (st, false) { RunStep(w, height + i); }
      st, stop := AuditItem(st, w.goOn, blockHeight, items[i], w.replies(height + i));
      if stop { return st, true; }
    }
    return st, false;
  }

  /** `audit_range`; None where it raises. Whatever the batch size, the result is the fold over heights;
      each checkpoint holds the fold up to its height. */
  method AuditRange(w: World, batch: (int, int) -> seq<Item>, maxProblems: nat)
    returns (r: Option<Summary>, checkpoints: seq<Checkpoint>)
    requires w.size > 0
    ensures HoldsRange(w, batch) ==> r == Some(BuildAuditSummary(Run(w, w.end).0, maxProblems))
    ensures HoldsRange(w, batch) ==> CheckpointsOk(w, checkpoints)
    ensures HoldsRange(w, batch) && !Run(w, w.end).1 && w.start <= w.end ==>
      checkpoints != [] && checkpoints[|checkpoints| - 1].last == w.end
  {
    hide HoldsRange, Covers, Run, BuildAuditSummary, FirstOfBatch, CheckpointsOk;
    checkpoints := [];
    assert CheckpointsOk(w, []) by { NoCheckpoints(w); }
    var st := Initial(w);
    var height := w.start;
    BeforeStart(w, w.start - 1);
    while height <= w.end
      invariant w.start <= height
      invariant height <= w.end ==> FirstOfBatch(w.start, w.size, height) == height
      invariant if w.start <= w.end then height <= w.end + 1 else st == Initial(w)
      invariant w.start < height ==> checkpoints != [] && checkpoints[|checkpoints| - 1].last == height - 1
      invariant if checkpoints == [] then height == w.start else checkpoints[|checkpoints| - 1].next == height
      invariant HoldsRange(w, batch) ==> Run(w, height - 1) == (st, false)
      invariant HoldsRange(w, batch) ==> CheckpointsOk(w, checkpoints)
      decreases w.end - height
    {
      var count := if w.size < w.end - height + 1 then w.size else w.end - height + 1;
      var items := batch(height, count);
      UseRange(w, batch, height, count);
      CoversLength(w, items, height, count);
      if |items| != count { return None, checkpoints; }
      var stop;
      st, stop := AuditBatch(w, st, items, height);
      if stop {
        if HoldsRange(w, batch) {
          var h :| height <= h < height + |items| && Run(w, h) == (st, true);
          StoppedStays(w, h, w.end);
        }
        return Some(BuildAuditSummary(st, maxProblems)), checkpoints;
      }
      SameBatch(w.start, w.size, height, 0);
      var checkpoint := Checkpoint(height + count - 1, height + count, st);
      if HoldsRange(w, batch) { AddCheckpoint(w, checkpoints, checkpoint); }
      checkpoints := checkpoints + [checkpoint];
      height := height + count;
    }
    BeforeStart(w, w.end);
    r := Some(BuildAuditSummary(st, maxProblems));
  }

  lemma CoversLength(w: World, items: seq<Item>, h: int, count: int)
    ensures Covers(w, items, h, count) ==> |items| == count
  {
  }

  lemma NoCheckpoints(w: World)
    requires w.size > 0
    ensures CheckpointsOk(w, [])
  {
  }

  lemma BeforeStart(w: World, last: int)
    requires w.size > 0
    ensures last < w.start ==> Run(w, last) == (Initial(w), false)
  {
  }

  // ----- what a run says -----

  ghost function RecordsAt(problems: seq<Problem>, kind: Kind): set<int>
  {
    set i | 0 <= i < |problems| && problems[i].kind == kind
  }

  /** How many records are of a kind. */
  ghost function Records(problems: seq<Problem>, kind: Kind): nat { |RecordsAt(problems, kind)| }

  lemma OneMoreRecord(problems: seq<Problem>, p: Problem, kind: Kind)
    ensures Records(problems + [p], kind) == Records(problems, kind) + (if p.kind == kind then 1 else 0)
  {
    var (a, b) := (RecordsAt(problems, kind), RecordsAt(problems + [p], kind));
    forall i ensures i in b <==> i in a || (i == |problems| && p.kind == kind) { }
    hide RecordsAt;
    assert b == if p.kind == kind then a + {|problems|} else a;
    assert |problems| !in a by { NotPastEnd(problems, kind); }
  }

  lemma NotPastEnd(problems: seq<Problem>, kind: Kind)
    ensures |problems| !in RecordsAt(problems, kind)
  {
  }

  /** Each counter of problems is the number of records of its kinds. */
  ghost predicate Tallied(st: State)
  {
    && st.mismatches == Records(st.problems, PreviousRoot) + Records(st.problems, Mismatch)
    && st.missing == Records(st.problems, MissingReceipt) && st.failures == Records(st.problems, SubmitFailed)
    && |st.problems| == st.mismatches + st.missing + st.failures
  }

  lemma {:induction false} ReportsAreTallied(st: State, place: Place, kinds: seq<Kind>)
    requires Tallied(st)
    ensures Tallied(ReportAll(st, place, kinds)) && |ReportAll(st, place, kinds).problems| == |st.problems| + |kinds|
  {
    hide Records;
    if kinds != [] {
      var (before, p) := (ReportAll(st, place, kinds[..|kinds| - 1]), ProblemOf(place, kinds[|kinds| - 1]));
      ReportsAreTallied(st, place, kinds[..|kinds| - 1]);
      OneMoreRecord(before.problems, p, PreviousRoot);
      OneMoreRecord(before.problems, p, Mismatch);
      OneMoreRecord(before.problems, p, MissingReceipt);
      OneMoreRecord(before.problems, p, SubmitFailed);
    }
  }

  lemma NothingTallied(w: World)
    ensures Tallied(Initial(w))
  {
  }

  /** In every run, stopped or not. */
  lemma {:induction false} ProblemCount(w: World, last: int)
    requires w.size > 0
    ensures Tallied(Run(w, last).0)
    decreases last - w.start + 1
  {
    hide ReportAll, Faults, Compared, HeightOf, Records;
    if last < w.start {
      NothingTallied(w);
    } else {
      ProblemCount(w, last - 1);
      if !Run(w, last - 1).1 {
        var st := Run(w, last - 1).0;
        AfterIsReport(st, w.goOn, HeightOf(w, last), w.blocks(last), w.replies(last));
        ReportsAreTallied(Moved(st, w.goOn, HeightOf(w, last), w.blocks(last), w.replies(last)),
          Place(HeightOf(w, last), st.top), Reported(w.goOn, Faults(w.blocks(last), w.replies(last), st.head)));
      }
    }
  }

  /** The counters that do not count problems, and the head, after a block. */
  ghost function Moved(st: State, goOn: bool, height: int, item: Item, reply: Option<Regenerated>): State
  {
    if Compared(goOn, item, reply, st.head) then Passed(st, height, item, reply) else st
  }

  lemma AfterIsReport(st: State, goOn: bool, height: int, item: Item, reply: Option<Regenerated>)
    ensures After(st, goOn, height, item, reply) == ReportAll(
      Moved(st, goOn, height, item, reply), Place(height, st.top), Reported(goOn, Faults(item, reply, st.head)))
  {
    hide ReportAll, Faults;
  }

  // ----- what a pass means -----

  /** The head root before height h: the last one that a regenerated receipt has carried. */
  function Carried(w: World, h: int): string
    decreases h - w.start
  {
    if h <= w.start then w.head
    else if w.replies(h - 1).Some? && w.replies(h - 1).value.root.Some? then w.replies(h - 1).value.root.value
    else Carried(w, h - 1)
  }

  /** Nothing is wrong at height h. */
  ghost predicate GoodAt(w: World, h: int)
  {
    && w.blocks(h).receipt.Some? && w.replies(h).Some? && Agree(w.blocks(h).receipt.value, w.replies(h).value)
    && (w.blocks(h).previousRoot == "" || Carried(w, h) == "" || w.blocks(h).previousRoot == Carried(w, h))
  }

  ghost predicate GoodUpTo(w: World, last: int)
  {
    forall h :: w.start <= h <= last ==> GoodAt(w, h)
  }

  lemma FaultsAt(w: World, h: int)
    ensures Faults(w.blocks(h), w.replies(h), Carried(w, h)) == [] <==> GoodAt(w, h)
  {
    hide Agree;
  }

  /** The last height before h at which a block has been submitted. */
  function LastSubmitted(w: World, h: int): Option<int>
    decreases h - w.start
  {
    if h <= w.start then None else if w.replies(h - 1).Some? then Some(h - 1) else LastSubmitted(w, h - 1)
  }

  /** The head before height h, as it is printed. */
  function TopBefore(w: World, h: int): Top
    requires w.size > 0
  {
    match LastSubmitted(w, h)
    case None => AtStart
    case Some(k) => Submitted(HeightOf(w, k))
  }

  function PlaceOf(w: World, h: int): Place
    requires w.size > 0
  {
    Place(HeightOf(w, h), TopBefore(w, h))
  }

  /** One step of a run that has not stopped: it stops exactly at a bad block that it may not pass, and goes on
      with the root and the head that the block leaves. */
  lemma HeadStep(w: World, st: State, h: int)
    requires w.size > 0 && w.start <= h && st.head == Carried(w, h) && st.top == TopBefore(w, h)
    ensures Stops(st, w.goOn, w.blocks(h), w.replies(h)) <==> !w.goOn && !GoodAt(w, h)
    ensures var r := After(st, w.goOn, HeightOf(w, h), w.blocks(h), w.replies(h));
      (w.goOn || GoodAt(w, h)) ==> r.head == Carried(w, h + 1) && r.top == TopBefore(w, h + 1)
  {
    FaultsAt(w, h);
    if GoodAt(w, h) { GoodIsCompared(w, h); }
    hide Faults, GoodAt, Agree, HeightOf;
    var (item, reply) := (w.blocks(h), w.replies(h));
    var moved := Moved(st, w.goOn, HeightOf(w, h), item, reply);
    AfterIsReport(st, w.goOn, HeightOf(w, h), item, reply);
    hide After;
    ReportOnly(moved, Place(HeightOf(w, h), st.top), Reported(w.goOn, Faults(item, reply, st.head)), moved);
  }

  /** A run stops at the first bad block, unless it goes on; until then it carries the last root present and the
      height of the last block submitted. */
  lemma {:induction false} RunHeads(w: World, last: int)
    requires w.size > 0 && last >= w.start - 1
    ensures Run(w, last).1 <==> !w.goOn && !GoodUpTo(w, last)
    ensures !Run(w, last).1 ==>
      Run(w, last).0.head == Carried(w, last + 1) && Run(w, last).0.top == TopBefore(w, last + 1)
    decreases last - w.start + 1
  {
    hide After, Stops, HeightOf, GoodAt;
    if last >= w.start {
      RunHeads(w, last - 1);
      if !Run(w, last - 1).1 { HeadStep(w, Run(w, last - 1).0, last); }
      assert GoodUpTo(w, last) <==> GoodUpTo(w, last - 1) && GoodAt(w, last);
    }
  }

  lemma GoodStep(w: World, st: State, h: int)
    requires w.size > 0 && GoodAt(w, h) && st.head == Carried(w, h)
    ensures !Stops(st, w.goOn, w.blocks(h), w.replies(h))
    ensures var r := After(st, w.goOn, HeightOf(w, h), w.blocks(h), w.replies(h));
      r.problems == st.problems && r.checked == st.checked + 1
      && r.head == if w.replies(h).value.root.Some? then w.replies(h).value.root.value else st.head
  {
    FaultsAt(w, h);
    GoodIsCompared(w, h);
    hide Faults, GoodAt, Agree, HeightOf, Compared;
    AfterIsReport(st, w.goOn, HeightOf(w, h), w.blocks(h), w.replies(h));
  }

  /** As long as everything is good, the fold counts every block, notes nothing, and carries the head root. */
  lemma {:induction false} GoodRun(w: World, last: int)
    requires w.size > 0 && GoodUpTo(w, last) && last >= w.start - 1
    ensures var (st, stopped) := Run(w, last);
      !stopped && st.problems == [] && st.checked == last - w.start + 1 && st.head == Carried(w, last + 1)
    decreases last - w.start + 1
  {
    hide After, Stops, HeightOf, GoodAt;
    if last >= w.start {
      GoodRun(w, last - 1);
      GoodStep(w, Run(w, last - 1).0, last);
      assert w.replies(last).Some? by { assert GoodAt(w, last); GoodIsCompared(w, last); }
    }
  }

  lemma GoodIsCompared(w: World, h: int)
    requires GoodAt(w, h)
    ensures w.replies(h).Some? && Compared(w.goOn, w.blocks(h), w.replies(h), Carried(w, h))
  {
    hide Agree;
  }

  /** A problem once noted stays. */
  lemma {:induction false} ProblemsStay(w: World, h: int, last: int)
    requires w.size > 0 && h <= last
    ensures Run(w, h).0.problems <= Run(w, last).0.problems
    decreases last - h
  {
    if h < last && last >= w.start {
      ProblemsStay(w, h, last - 1);
      StepProblems(w, last);
    }
  }

  lemma StepProblems(w: World, last: int)
    requires w.size > 0 && last >= w.start
    ensures var (b, head) := (Run(w, last - 1), Run(w, last - 1).0.head);
      Run(w, last).0.problems == b.0.problems + (
        if b.1 then []
        else ProblemsAt(Place(HeightOf(w, last), b.0.top),
                        Reported(w.goOn, Faults(w.blocks(last), w.replies(last), head))))
  {
    hide Faults, HeightOf;
    var b := Run(w, last - 1);
    if !b.1 {
      RunStep(w, last);
      var kinds := Reported(w.goOn, Faults(w.blocks(last), w.replies(last), b.0.head));
      AfterIsReport(b.0, w.goOn, HeightOf(w, last), w.blocks(last), w.replies(last));
      ReportedProblems(Moved(b.0, w.goOn, HeightOf(w, last), w.blocks(last), w.replies(last)),
        Place(HeightOf(w, last), b.0.top), kinds);
    }
  }

  /** The first bad height leaves a problem. */
  lemma FirstBad(w: World, h: int)
    requires w.size > 0 && w.start <= h && GoodUpTo(w, h - 1) && !GoodAt(w, h)
    ensures Run(w, h).0.problems != [] && (!w.goOn ==> Run(w, h).1)
    ensures !w.goOn ==> |Run(w, h).0.problems| == 1
    ensures Run(w, h).0.problems[0] == ProblemOf(PlaceOf(w, h), Faults(w.blocks(h), w.replies(h), Carried(w, h))[0])
    ensures Faults(w.blocks(h), w.replies(h), Carried(w, h)) != []
  {
    hide Run, Faults, GoodAt, HeightOf, Carried, TopBefore, ProblemOf, GoodUpTo;
    GoodRun(w, h - 1);
    RunHeads(w, h - 1);
    FaultsAt(w, h);
    StepProblems(w, h);
    assert !GoodUpTo(w, h) by { NotGoodUpTo(w, h); }
    RunHeads(w, h);
  }

  lemma NotGoodUpTo(w: World, h: int)
    requires w.start <= h && !GoodAt(w, h)
    ensures !GoodUpTo(w, h)
  {
    hide GoodAt;
  }

  lemma {:induction false} ReportedProblems(st: State, place: Place, kinds: seq<Kind>)
    ensures ReportAll(st, place, kinds).problems == st.problems + ProblemsAt(place, kinds)
  {
    if kinds != [] {
      ReportedProblems(st, place, kinds[..|kinds| - 1]);
      var (before, last) := (ProblemsAt(place, kinds[..|kinds| - 1]), ProblemOf(place, kinds[|kinds| - 1]));
      assert ProblemsAt(place, kinds) == before + [last];
    }
  }

  function ProblemsAt(place: Place, kinds: seq<Kind>): (r: seq<Problem>)
    ensures |r| == |kinds|
    ensures forall i :: 0 <= i < |r| ==>
      r[i] == Problem(place.height, kinds[i], if kinds[i] == PreviousRoot then Some(place.head) else None)
  {
    seq(|kinds|, i requires 0 <= i < |kinds| => ProblemOf(place, kinds[i]))
  }

  lemma {:induction false} LeastBad(w: World, last: int) returns (h: int)
    requires !GoodUpTo(w, last)
    ensures w.start <= h <= last && GoodUpTo(w, h - 1) && !GoodAt(w, h)
    decreases last - w.start + 1
  {
    hide GoodAt;
    if GoodUpTo(w, last - 1) { h := last; } else { h := LeastBad(w, last - 1); }
  }

  /** The audit passes exactly when nothing is wrong at any height; it has then checked every block. */
  lemma PassIffGood(w: World, maxProblems: nat)
    requires w.size > 0 && w.start <= w.end + 1
    ensures var r := BuildAuditSummary(Run(w, w.end).0, maxProblems);
      && (r.pass <==> GoodUpTo(w, w.end))
      && (r.pass ==> r.checked == w.end - w.start + 1 && r.first.None? && r.problems == [] && r.truncated == 0)
  {
    hide Run, GoodUpTo;
    ProblemCount(w, w.end);
    FirstIsFirst(w, w.end);
    if GoodUpTo(w, w.end) {
      GoodRun(w, w.end);
    } else {
      var h := LeastBad(w, w.end);
      FirstBad(w, h);
      ProblemsStay(w, h, w.end);
    }
  }

  /** `first_problem` is the first of the problems. */
  lemma {:induction false} FirstIsFirst(w: World, last: int)
    requires w.size > 0
    ensures var st := Run(w, last).0; st.first == if st.problems == [] then None else Some(st.problems[0])
    decreases last - w.start + 1
  {
    if last >= w.start {
      FirstIsFirst(w, last - 1);
      var st := Run(w, last - 1).0;
      if Run(w, last - 1).1 { return; }
      RunStep(w, last);
      hide Run, ReportAll, Faults, HeightOf, Compared;
      AfterIsReport(st, w.goOn, HeightOf(w, last), w.blocks(last), w.replies(last));
      FirstReported(Moved(st, w.goOn, HeightOf(w, last), w.blocks(last), w.replies(last)),
        Place(HeightOf(w, last), st.top), Reported(w.goOn, Faults(w.blocks(last), w.replies(last), st.head)));
    }
  }

  lemma {:induction false} FirstReported(st: State, place: Place, kinds: seq<Kind>)
    requires st.first == if st.problems == [] then None else Some(st.problems[0])
    ensures var r := ReportAll(st, place, kinds); r.first == if r.problems == [] then None else Some(r.problems[0])
  {
    if kinds != [] { FirstReported(st, place, kinds[..|kinds| - 1]); }
  }

  // ----- what does not matter -----

  lemma {:induction false} CarriedForgetsMode(w: World, v: World, h: int)
    requires v == w.(goOn := v.goOn)
    ensures Carried(v, h) == Carried(w, h)
    decreases h - w.start
  {
    if h > w.start { CarriedForgetsMode(w, v, h - 1); }
  }

  lemma {:induction false} SubmittedForgetsMode(w: World, v: World, h: int)
    requires v == w.(goOn := v.goOn)
    ensures LastSubmitted(v, h) == LastSubmitted(w, h)
    decreases h - w.start
  {
    if h > w.start { SubmittedForgetsMode(w, v, h - 1); }
  }

  lemma GoodForgetsMode(w: World, v: World, last: int)
    requires v == w.(goOn := v.goOn)
    ensures GoodUpTo(v, last) <==> GoodUpTo(w, last)
  {
    hide Agree, Carried;
    forall h ensures GoodAt(v, h) <==> GoodAt(w, h) { CarriedForgetsMode(w, v, h); }
  }

  /** Stopping at the first problem finds the problem that a full audit reports first. */
  lemma StoppingFindsTheFirst(w: World)
    requires w.size > 0 && w.start <= w.end + 1
    ensures Run(w.(goOn := false), w.end).0.first == Run(w.(goOn := true), w.end).0.first
    ensures |Run(w.(goOn := false), w.end).0.problems| <= 1
  {
    hide Run, GoodUpTo, GoodAt, Faults;
    var (x, y) := (w.(goOn := false), w.(goOn := true));
    FirstIsFirst(x, w.end);
    FirstIsFirst(y, w.end);
    GoodForgetsMode(x, y, w.end);
    if GoodUpTo(x, w.end) {
      GoodRun(x, w.end);
      GoodRun(y, w.end);
    } else {
      var h := LeastBad(x, w.end);
      GoodForgetsMode(x, y, h - 1);
      SameGoodness(x, y, h);
      CarriedForgetsMode(x, y, h);
      SubmittedForgetsMode(x, y, h);
      FirstBad(x, h);
      FirstBad(y, h);
      ProblemsStay(x, h, w.end);
      ProblemsStay(y, h, w.end);
      StoppedStays(x, h, w.end);
      assert Run(y, w.end).0.problems[0] == Run(y, h).0.problems[0];
    }
  }

  lemma SameGoodness(w: World, v: World, h: int)
    requires v == w.(goOn := v.goOn)
    ensures GoodAt(v, h) <==> GoodAt(w, h)
  {
    hide Agree, Carried;
    CarriedForgetsMode(w, v, h);
  }

  /** A state without what prints heights: the problem records and the head's height. */
  ghost function Counters(st: State): State { st.(problems := [], first := None, top := AtStart) }

  lemma {:induction false} ReportForgetsPlaces(a: State, b: State, p: Place, q: Place, kinds: seq<Kind>)
    requires Counters(a) == Counters(b)
    ensures Counters(ReportAll(a, p, kinds)) == Counters(ReportAll(b, q, kinds))
  {
    if kinds != [] { ReportForgetsPlaces(a, b, p, q, kinds[..|kinds| - 1]); }
  }

  /** The batch size matters at most to the heights that are printed. */
  lemma {:induction false} CountersForgetSize(w: World, size: nat, last: int)
    requires w.size > 0 && size > 0
    ensures var (x, y) := (Run(w.(size := size), last), Run(w, last)); Counters(x.0) == Counters(y.0) && x.1 == y.1
    decreases last - w.start + 1
  {
    if last >= w.start {
      var v := w.(size := size);
      CountersForgetSize(w, size, last - 1);
      var (a, b) := (Run(v, last - 1), Run(w, last - 1));
      hide ReportAll, Faults, HeightOf, Compared, Passed;
      if !b.1 {
        var (item, reply) := (w.blocks(last), w.replies(last));
        var (h, k) := (HeightOf(v, last), HeightOf(w, last));
        AfterIsReport(a.0, w.goOn, h, item, reply);
        AfterIsReport(b.0, w.goOn, k, item, reply);
        MovedForgets(a.0, b.0, w.goOn, h, k, item, reply);
        ReportForgetsPlaces(Moved(a.0, w.goOn, h, item, reply), Moved(b.0, w.goOn, k, item, reply),
                            Place(h, a.0.top), Place(k, b.0.top), Reported(w.goOn, Faults(item, reply, b.0.head)));
      }
    }
  }

  lemma MovedForgets(a: State, b: State, goOn: bool, h: int, k: int, item: Item, reply: Option<Regenerated>)
    requires Counters(a) == Counters(b)
    ensures Counters(Moved(a, goOn, h, item, reply)) == Counters(Moved(b, goOn, k, item, reply)) && a.head == b.head
  {
    assert a.head == Counters(a).head && b.head == Counters(b).head;
    hide Compared;
  }

  // ----- what the counters count -----

  /** Reporting counts each kind in its counter. */
  lemma {:induction false} ReportsCount(st: State, place: Place, kinds: seq<Kind>)
    ensures var (r, m) := (ReportAll(st, place, kinds), multiset(kinds));
      && r.mismatches == st.mismatches + m[PreviousRoot] + m[Mismatch]
      && r.missing == st.missing + m[MissingReceipt] && r.failures == st.failures + m[SubmitFailed]
  {
    if kinds != [] {
      assert kinds == kinds[..|kinds| - 1] + [kinds[|kinds| - 1]];
      ReportsCount(st, place, kinds[..|kinds| - 1]);
    }
  }

  ghost predicate NoReceipt(w: World, h: int) { w.blocks(h).receipt.None? }

  ghost predicate NoReply(w: World, h: int) { w.replies(h).None? }

  ghost predicate Answered(w: World, h: int) { w.replies(h).Some? }

  /** The block states a root that is not the one carried, and neither is empty. */
  ghost predicate WrongPrevious(w: World, h: int)
  {
    w.blocks(h).previousRoot != "" && Carried(w, h) != "" && w.blocks(h).previousRoot != Carried(w, h)
  }

  /** The answer differs from the stored receipt; without one, it is not empty. */
  ghost predicate Disagrees(w: World, h: int)
  {
    w.replies(h).Some? && (
      match w.blocks(h).receipt
      case None => w.replies(h).value.deltas != [] || w.replies(h).value.txs != []
      case Some(stored) => !Agree(stored, w.replies(h).value))
  }

  /** The block was answered, and its receipt, if there is one, has no root. */
  ghost predicate RootUnknown(w: World, h: int)
  {
    w.replies(h).Some? && (w.blocks(h).receipt.None? || w.blocks(h).receipt.value.root == "")
  }

  ghost function One(b: bool): nat { if b then 1 else 0 }

  lemma FaultCounts(item: Item, reply: Option<Regenerated>, head: string)
    ensures var m := multiset(Faults(item, reply, head));
      && m[MissingReceipt] == One(item.receipt.None?) && m[SubmitFailed] == One(reply.None?)
      && m[PreviousRoot] == One(item.previousRoot != "" && head != "" && item.previousRoot != head)
      && m[Mismatch] == One(reply.Some? && !Agree(StoredOf(item), reply.value))
  {
    hide Agree;
    var (a, b) := (EarlyFaults(item, head), LateFaults(item, reply));
    assert multiset(a + b) == multiset(a) + multiset(b);
  }

  /** What one block adds to the counters when the audit goes on. */
  lemma BlockCounts(st: State, height: int, item: Item, reply: Option<Regenerated>)
    ensures var r := After(st, true, height, item, reply);
      && r.checked == st.checked + One(reply.Some?)
      && r.noRoot == st.noRoot + One(reply.Some? && StoredOf(item).root == "")
      && r.missing == st.missing + One(item.receipt.None?) && r.failures == st.failures + One(reply.None?)
      && r.mismatches == st.mismatches
        + One(item.previousRoot != "" && st.head != "" && item.previousRoot != st.head)
        + One(reply.Some? && !Agree(StoredOf(item), reply.value))
  {
    hide ReportAll, Agree, Faults;
    var (kinds, moved) := (Faults(item, reply, st.head), Moved(st, true, height, item, reply));
    AfterIsReport(st, true, height, item, reply);
    assert Reported(true, kinds) == kinds;
    ReportsCount(moved, Place(height, st.top), kinds);
    ReportOnly(moved, Place(height, st.top), kinds, moved);
    FaultCounts(item, reply, st.head);
  }

  /** The heights up to `last` at which something holds. */
  ghost function Heights(w: World, last: int, p: (World, int) -> bool): set<int>
  {
    set h | w.start <= h <= last && p(w, h)
  }

  lemma OneMoreHeight(w: World, last: int, p: (World, int) -> bool)
    requires w.start <= last
    ensures |Heights(w, last, p)| == |Heights(w, last - 1, p)| + One(p(w, last))
  {
    assert Heights(w, last, p) == Heights(w, last - 1, p) + if p(w, last) then {last} else {};
  }

  /** The counters of an audit that goes on, told from the blocks and the answers. */
  ghost predicate Counted(w: World, last: int, st: State)
  {
    && st.checked == |Heights(w, last, Answered)| && st.noRoot == |Heights(w, last, RootUnknown)|
    && st.missing == |Heights(w, last, NoReceipt)| && st.failures == |Heights(w, last, NoReply)|
    && st.mismatches == |Heights(w, last, WrongPrevious)| + |Heights(w, last, Disagrees)|
  }

  lemma NothingCounted(w: World, last: int)
    requires last < w.start
    ensures Counted(w, last, Initial(w))
  {
    assert forall p: (World, int) -> bool :: Heights(w, last, p) == {};
  }

  lemma DisagreesIff(w: World, h: int)
    ensures Disagrees(w, h) <==> w.replies(h).Some? && !Agree(StoredOf(w.blocks(h)), w.replies(h).value)
  {
  }

  lemma {:induction false} ContinueCounts(w: World, last: int)
    requires w.size > 0 && w.goOn
    ensures !Run(w, last).1 && Counted(w, last, Run(w, last).0)
    decreases last - w.start + 1
  {
    hide After, HeightOf, Agree, Heights, Disagrees;
    if last < w.start {
      NothingCounted(w, last);
    } else {
      ContinueCounts(w, last - 1);
      RunHeads(w, last - 1);
      BlockCounts(Run(w, last - 1).0, HeightOf(w, last), w.blocks(last), w.replies(last));
      OneMoreHeight(w, last, Answered);
      OneMoreHeight(w, last, RootUnknown);
      OneMoreHeight(w, last, NoReceipt);
      OneMoreHeight(w, last, NoReply);
      OneMoreHeight(w, last, WrongPrevious);
      OneMoreHeight(w, last, Disagrees);
      DisagreesIff(w, last);
    }
  }

  /** The summary: each counter is the number of records of its kinds, the records shown are the first ones, and
      the number left out is told. Of an audit that goes on, each counter counts the heights where something is
      wrong. */
  lemma SummaryCounts(w: World, cap: nat)
    requires w.size > 0
    ensures var (st, r) := (Run(w, w.end).0, BuildAuditSummary(Run(w, w.end).0, cap));
      && r.mismatches == Records(st.problems, PreviousRoot) + Records(st.problems, Mismatch)
      && r.missing == Records(st.problems, MissingReceipt) && r.failures == Records(st.problems, SubmitFailed)
      && r.problems <= st.problems && |r.problems| + r.truncated == |st.problems|
      && |r.problems| <= cap && (r.truncated > 0 ==> |r.problems| == cap)
      && (r.pass <==> st.problems == [])
      && r.first == (if st.problems == [] then None else Some(st.problems[0]))
    ensures w.goOn ==>
      var r := BuildAuditSummary(Run(w, w.end).0, cap);
      && r.checked == |Heights(w, w.end, Answered)| && r.noRoot == |Heights(w, w.end, RootUnknown)|
      && r.missing == |Heights(w, w.end, NoReceipt)| && r.failures == |Heights(w, w.end, NoReply)|
      && r.mismatches == |Heights(w, w.end, WrongPrevious)| + |Heights(w, w.end, Disagrees)|
  {
    hide Run, Records, Heights;
    ProblemCount(w, w.end);
    FirstIsFirst(w, w.end);
    if w.goOn { ContinueCounts(w, w.end); }
  }

  /** Without stopping, every block is either checked or failed to be submitted. */
  lemma EveryBlockIsProcessed(w: World, last: int)
    requires w.size > 0 && w.goOn
    ensures !Run(w, last).1
    ensures var st := Run(w, last).0; last >= w.start - 1 ==> st.checked + st.failures == last - w.start + 1
  {
    hide Run, Heights;
    ContinueCounts(w, last);
    if last >= w.start - 1 { AnsweredOrNot(w, last); }
  }

  lemma {:induction false} AnsweredOrNot(w: World, last: int)
    requires last >= w.start - 1
    ensures |Heights(w, last, Answered)| + |Heights(w, last, NoReply)| == last - w.start + 1
    decreases last - w.start + 1
  {
    if last >= w.start {
      AnsweredOrNot(w, last - 1);
      OneMoreHeight(w, last, Answered);
      OneMoreHeight(w, last, NoReply);
    }
  }

  // ----- what a summary shows of the batch size -----

  /** The kinds of problem reported at height h, told from the blocks and the answers: all of them when the audit
      goes on, and otherwise the first one at the first bad height. */
  ghost function ReportedAt(w: World, h: int): seq<Kind>
  {
    if w.goOn || GoodUpTo(w, h - 1) then Reported(w.goOn, Faults(w.blocks(h), w.replies(h), Carried(w, h))) else []
  }

  /** How many problems are noted before height h. */
  ghost function NotedBefore(w: World, h: int): nat
    decreases h - w.start
  {
    if h <= w.start then 0 else NotedBefore(w, h - 1) + |ReportedAt(w, h - 1)|
  }

  /** A problem at height h is among the first `cap`. */
  ghost predicate Shown(w: World, h: int, cap: nat)
  {
    ReportedAt(w, h) != [] && NotedBefore(w, h) < cap
  }

  /** So is one that prints the head. */
  ghost predicate ShowsHead(w: World, h: int, cap: nat)
  {
    HeadAmong(ReportedAt(w, h), cap - NotedBefore(w, h))
  }

  ghost predicate HeadAmong(kinds: seq<Kind>, n: int)
  {
    exists i :: 0 <= i < |kinds| && i < n && kinds[i] == PreviousRoot
  }

  /** The problems of a run, height by height. */
  lemma {:induction false} ProblemsAre(w: World, last: int)
    requires w.size > 0 && last >= w.start - 1
    ensures last >= w.start ==>
      Run(w, last).0.problems == Run(w, last - 1).0.problems + ProblemsAt(PlaceOf(w, last), ReportedAt(w, last))
    ensures |Run(w, last).0.problems| == NotedBefore(w, last + 1)
    decreases last - w.start + 1
  {
    if last >= w.start {
      ProblemsAre(w, last - 1);
      StepProblems(w, last);
      RunHeads(w, last - 1);
      hide Run, Faults, HeightOf, GoodUpTo;
    }
  }

  lemma {:induction false} CarriedForgetsSize(w: World, size: nat, h: int)
    ensures Carried(w.(size := size), h) == Carried(w, h)
    ensures LastSubmitted(w.(size := size), h) == LastSubmitted(w, h)
    decreases h - w.start
  {
    if h > w.start { CarriedForgetsSize(w, size, h - 1); }
  }

  lemma ReportedForgetsSize(w: World, size: nat, h: int)
    ensures ReportedAt(w.(size := size), h) == ReportedAt(w, h)
  {
    hide Agree, Carried, Faults;
    var v := w.(size := size);
    forall k ensures GoodAt(v, k) <==> GoodAt(w, k) { CarriedForgetsSize(w, size, k); }
    CarriedForgetsSize(w, size, h);
    hide GoodAt;
    assert GoodUpTo(v, h - 1) <==> GoodUpTo(w, h - 1) by {
      if GoodUpTo(v, h - 1) { forall k | w.start <= k <= h - 1 ensures GoodAt(w, k) { assert GoodAt(v, k); } }
      if GoodUpTo(w, h - 1) { forall k | v.start <= k <= h - 1 ensures GoodAt(v, k) { assert GoodAt(w, k); } }
    }
  }

  function Take(s: seq<Problem>, n: int): seq<Problem>
  {
    if n <= 0 then [] else if |s| <= n then s else s[..n]
  }

  lemma TakeConcat(a: seq<Problem>, x: seq<Problem>, n: int)
    ensures Take(a + x, n) == Take(a, n) + Take(x, n - |a|)
  {
    if 0 < n && |a| < n {
      assert Take(a + x, n) == a + Take(x, n - |a|);
    } else if 0 < n {
      assert (a + x)[..n] == a[..n];
    }
  }

  lemma TakesAgree(a: seq<Problem>, b: seq<Problem>, x: seq<Problem>, y: seq<Problem>, n: int)
    requires |a| == |b| && |x| == |y|
    ensures Take(a + x, n) == Take(b + y, n) <==> Take(a, n) == Take(b, n) && Take(x, n - |a|) == Take(y, n - |a|)
  {
    TakeConcat(a, x, n);
    TakeConcat(b, y, n);
    var (p, q, u, v) := (Take(a, n), Take(b, n), Take(x, n - |a|), Take(y, n - |a|));
    assert |p| == |q| && |u| == |v|;
    hide Take;
    assert (p + u)[..|p|] == p && (p + u)[|p|..] == u && (q + v)[..|q|] == q && (q + v)[|q|..] == v;
  }

  /** The first records of two places are the same when what they print is. */
  lemma SamePrinted(p: Place, q: Place, kinds: seq<Kind>, n: int)
    ensures Take(ProblemsAt(p, kinds), n) == Take(ProblemsAt(q, kinds), n) <==>
      (kinds != [] && n > 0 ==> p.height == q.height) && (HeadAmong(kinds, n) ==> p.head == q.head)
  {
    var (x, y) := (Take(ProblemsAt(p, kinds), n), Take(ProblemsAt(q, kinds), n));
    assert |x| == |y|;
    assert forall i :: 0 <= i < |x| ==> x[i] == ProblemOf(p, kinds[i]) && y[i] == ProblemOf(q, kinds[i]);
    if x == y {
      if kinds != [] && n > 0 { assert x[0].height == y[0].height; }
      if HeadAmong(kinds, n) {
        var i :| 0 <= i < |kinds| && i < n && kinds[i] == PreviousRoot;
        assert x[i].head == y[i].head;
      }
    }
  }

  /** What two batch sizes print at a height that the summary shows. */
  ghost predicate SamePlace(w: World, v: World, h: int, cap: nat)
    requires w.size > 0 && v.size > 0
  {
    && (Shown(w, h, cap) ==> HeightOf(w, h) == HeightOf(v, h))
    && (ShowsHead(w, h, cap) ==> TopBefore(w, h) == TopBefore(v, h))
  }

  lemma ShownProblemsStep(w: World, v: World, last: int, cap: nat)
    requires w.size > 0 && v.size > 0 && v == w.(size := v.size) && last >= w.start
    requires |Run(v, last - 1).0.problems| == |Run(w, last - 1).0.problems|
    ensures |Run(v, last).0.problems| == |Run(w, last).0.problems|
    ensures Take(Run(v, last).0.problems, cap) == Take(Run(w, last).0.problems, cap) <==>
      Take(Run(v, last - 1).0.problems, cap) == Take(Run(w, last - 1).0.problems, cap) && SamePlace(w, v, last, cap)
  {
    hide Run, HeightOf, TopBefore, Take, ReportedAt, HeadAmong, ProblemsAt;
    ProblemsAre(w, last);
    ProblemsAre(v, last);
    ProblemsAre(w, last - 1);
    ReportedForgetsSize(w, v.size, last);
    var (a, b, kinds) := (Run(v, last - 1).0.problems, Run(w, last - 1).0.problems, ReportedAt(w, last));
    TakesAgree(a, b, ProblemsAt(PlaceOf(v, last), kinds), ProblemsAt(PlaceOf(w, last), kinds), cap);
    SamePrinted(PlaceOf(v, last), PlaceOf(w, last), kinds, cap - |b|);
  }

  lemma {:induction false} ShownProblemsAgree(w: World, v: World, last: int, cap: nat)
    requires w.size > 0 && v.size > 0 && v == w.(size := v.size) && last >= w.start - 1
    ensures Take(Run(v, last).0.problems, cap) == Take(Run(w, last).0.problems, cap) <==>
      forall h :: w.start <= h <= last ==> SamePlace(w, v, h, cap)
    ensures |Run(v, last).0.problems| == |Run(w, last).0.problems|
    decreases last - w.start + 1
  {
    hide SamePlace, After, Stops, HeightOf, Take;
    if last >= w.start {
      ShownProblemsAgree(w, v, last - 1, cap);
      ShownProblemsStep(w, v, last, cap);
    }
  }

  /** Two batch sizes give the same summary exactly when the records it shows print the same heights. */
  lemma SummariesAgreeIff(w: World, v: World, last: int, cap: nat)
    requires w.size > 0 && v.size > 0 && v == w.(size := v.size) && last >= w.start - 1 && cap > 0
    ensures BuildAuditSummary(Run(v, last).0, cap) == BuildAuditSummary(Run(w, last).0, cap) <==>
      forall h :: w.start <= h <= last ==> SamePlace(w, v, h, cap)
  {
    hide Run, SamePlace;
    CountersForgetSize(w, v.size, last);
    ShownProblemsAgree(w, v, last, cap);
    FirstIsFirst(w, last);
    FirstIsFirst(v, last);
    SummaryOfTake(Run(v, last).0, Run(w, last).0, cap);
  }

  lemma SummaryOfTake(a: State, b: State, cap: nat)
    requires Counters(a) == Counters(b) && |a.problems| == |b.problems| && cap > 0
    requires a.first == if a.problems == [] then None else Some(a.problems[0])
    requires b.first == if b.problems == [] then None else Some(b.problems[0])
    ensures BuildAuditSummary(a, cap) == BuildAuditSummary(b, cap) <==> Take(a.problems, cap) == Take(b.problems, cap)
  {
    var (x, y) := (Counters(a), Counters(b));
    assert a.checked == x.checked && a.mismatches == x.mismatches && a.missing == x.missing;
    assert a.noRoot == x.noRoot && a.failures == x.failures;
    assert b.checked == y.checked && b.mismatches == y.mismatches && b.missing == y.missing;
    assert b.noRoot == y.noRoot && b.failures == y.failures;
    if a.problems != [] {
      assert Take(a.problems, cap)[0] == a.problems[0] && Take(b.problems, cap)[0] == b.problems[0];
    }
  }

  /** The block states its height, or is the first of the range, whose height every batch size gives. */
  predicate Labelled(w: World, h: int) { h == w.start || w.blocks(h).stated.Some? }

  /** Every height that the summary shows is one that its block states: that of a block with a problem among the
      first `cap`, and, when one of these is about the previous root, that of the last block submitted before. */
  ghost predicate ShownAreLabelled(w: World, last: int, cap: nat)
  {
    && (forall h :: w.start <= h <= last && Shown(w, h, cap) ==> Labelled(w, h))
    && (forall h :: w.start <= h <= last && ShowsHead(w, h, cap) && LastSubmitted(w, h).Some? ==>
          Labelled(w, LastSubmitted(w, h).value))
  }

  /** No batch size changes the summary exactly when every height it shows is stated. */
  lemma SizeDoesNotMatterIff(w: World, last: int, cap: nat)
    requires w.size > 0 && last >= w.start - 1 && cap > 0
    ensures (forall size: nat :: size > 0 ==>
        BuildAuditSummary(Run(w.(size := size), last).0, cap) == BuildAuditSummary(Run(w, last).0, cap)) <==>
      ShownAreLabelled(w, last, cap)
  {
    hide Run, BuildAuditSummary, FirstOfBatch, Shown, ShowsHead;
    if ShownAreLabelled(w, last, cap) {
      forall size: nat | size > 0
        ensures BuildAuditSummary(Run(w.(size := size), last).0, cap) == BuildAuditSummary(Run(w, last).0, cap)
      {
        LabelledAreSame(w, w.(size := size), last, cap);
        SummariesAgreeIff(w, w.(size := size), last, cap);
      }
    } else {
      var v, h := UnlabelledShows(w, last, cap);
      SummariesAgreeIff(w, v, last, cap);
    }
  }

  lemma SubmittedBefore(w: World, h: int)
    ensures LastSubmitted(w, h).Some? ==> w.start <= LastSubmitted(w, h).value < h
    decreases h - w.start
  {
    if h > w.start { SubmittedBefore(w, h - 1); }
  }

  lemma LabelledAreSame(w: World, v: World, last: int, cap: nat)
    requires w.size > 0 && v.size > 0 && v == w.(size := v.size) && ShownAreLabelled(w, last, cap)
    ensures forall h :: w.start <= h <= last ==> SamePlace(w, v, h, cap)
  {
    hide Shown, ShowsHead, FirstOfBatch;
    FirstHeight(w.start, w.size);
    FirstHeight(v.start, v.size);
    forall h | w.start <= h <= last ensures SamePlace(w, v, h, cap) {
      CarriedForgetsSize(w, v.size, h);
    }
  }

  lemma FirstHeight(from: int, size: nat)
    requires size > 0
    ensures FirstOfBatch(from, size, from) == from
  {
  }

  lemma OneBatch(from: int, size: nat, h: int)
    requires size > 0 && from <= h < from + size
    ensures FirstOfBatch(from, size, h) == from
  {
  }

  /** A size other than that of the run: one batch up to the block when its height there is not the first one,
      and batches of one block when it is. */
  function OtherSize(w: World, k: int): nat
    requires w.size > 0 && k > w.start
  {
    if HeightOf(w, k) == w.start then 1 else k - w.start + 1
  }

  lemma OtherSizeShows(w: World, k: int)
    requires w.size > 0 && k > w.start && w.blocks(k).stated.None?
    ensures HeightOf(w.(size := OtherSize(w, k)), k) != HeightOf(w, k)
  {
    hide FirstOfBatch;
    OneBatch(w.start, k - w.start + 1, k);
    assert FirstOfBatch(w.start, 1, k) == k;
  }

  /** A height that is shown and not stated is another one for another batch size. */
  lemma UnlabelledShows(w: World, last: int, cap: nat) returns (v: World, h: int)
    requires w.size > 0 && !ShownAreLabelled(w, last, cap)
    ensures v.size > 0 && v == w.(size := v.size) && w.start <= h <= last && !SamePlace(w, v, h, cap)
  {
    hide Shown, ShowsHead, FirstOfBatch;
    if k :| w.start <= k <= last && Shown(w, k, cap) && !Labelled(w, k) {
      h, v := k, w.(size := OtherSize(w, k));
      OtherSizeShows(w, k);
    } else {
      h :| w.start <= h <= last && ShowsHead(w, h, cap) && LastSubmitted(w, h).Some?
        && !Labelled(w, LastSubmitted(w, h).value);
      var k := LastSubmitted(w, h).value;
      SubmittedBefore(w, h);
      v := w.(size := OtherSize(w, k));
      OtherSizeShows(w, k);
      CarriedForgetsSize(w, v.size, h);
    }
  }

  // ----- which root is carried -----

  /** The latest root before h that is not empty. */
  function LatestNonempty(w: World, h: int): string
    decreases h - w.start
  {
    if h <= w.start then w.head
    else if w.replies(h - 1).Some? && w.replies(h - 1).value.root.Some? && w.replies(h - 1).value.root.value != "" then
      w.replies(h - 1).value.root.value
    else LatestNonempty(w, h - 1)
  }

  lemma {:induction false} CarriedIsLatest(w: World, h: int)
    ensures Carried(w, h) != "" ==> Carried(w, h) == LatestNonempty(w, h)
    decreases h - w.start
  {
    if h > w.start { CarriedIsLatest(w, h - 1); }
  }

  /** After a pass, a stated previous root is the latest one regenerated, unless an empty root was carried. */
  lemma PassChecksPreviousRoots(w: World, h: int)
    requires w.size > 0 && w.start <= h <= w.end
    requires BuildAuditSummary(Run(w, w.end).0, 1).pass && w.blocks(h).previousRoot != "" && Carried(w, h) != ""
    ensures w.blocks(h).previousRoot == LatestNonempty(w, h)
  {
    hide Run, Agree;
    PassIffGood(w, 1);
    assert GoodAt(w, h);
    CarriedIsLatest(w, h);
  }

  /** The same run with another stated previous root at height h. */
  function Restated(w: World, h: int, root: string): World
  {
    w.(blocks := i => if i == h then w.blocks(i).(previousRoot := root) else w.blocks(i))
  }

  lemma {:induction false} RestatedCarries(w: World, h: int, root: string, i: int)
    ensures Carried(Restated(w, h, root), i) == Carried(w, i)
    decreases i - w.start
  {
    if i > w.start { RestatedCarries(w, h, root, i - 1); }
  }

  /** An empty carried root switches the check off: whatever previous root a block states behind it, the run
      passes as before. */
  lemma EmptyRootHidesMismatch(w: World, h: int, root: string)
    requires w.size > 0 && w.start <= h <= w.end && Carried(w, h) == ""
    ensures var v := Restated(w, h, root);
      BuildAuditSummary(Run(v, v.end).0, 1).pass <==> BuildAuditSummary(Run(w, w.end).0, 1).pass
  {
    hide Run, Carried, Agree;
    var v := Restated(w, h, root);
    PassIffGood(w, 1);
    PassIffGood(v, 1);
    forall i ensures GoodAt(v, i) <==> GoodAt(w, i) { RestatedCarries(w, h, root, i); }
    hide GoodAt;
    assert GoodUpTo(v, v.end) <==> GoodUpTo(w, w.end) by {
      if GoodUpTo(v, v.end) { forall i | w.start <= i <= w.end ensures GoodAt(w, i) { assert GoodAt(v, i); } }
      if GoodUpTo(w, w.end) { forall i | v.start <= i <= v.end ensures GoodAt(v, i) { assert GoodAt(w, i); } }
    }
  }

  /** While a nonempty one makes the check exact: the run passes only with that root, or none. */
  lemma NonemptyRootIsChecked(w: World, h: int, root: string)
    requires w.size > 0 && w.start <= h <= w.end && Carried(w, h) != ""
    requires BuildAuditSummary(Run(w, w.end).0, 1).pass
    ensures var v := Restated(w, h, root);
      BuildAuditSummary(Run(v, v.end).0, 1).pass <==> root == "" || root == Carried(w, h)
  {
    hide Run, Carried, Agree;
    var v := Restated(w, h, root);
    PassIffGood(w, 1);
    PassIffGood(v, 1);
    forall i ensures i != h ==> (GoodAt(v, i) <==> GoodAt(w, i)) { RestatedCarries(w, h, root, i); }
    RestatedCarries(w, h, root, h);
    assert GoodAt(w, h);
    assert GoodAt(v, h) <==> root == "" || root == Carried(w, h);
    hide GoodAt;
    forall i | w.start <= i <= w.end && i != h ensures GoodAt(v, i) { assert GoodAt(w, i); }
  }

  /** Such a run: the second block states a previous root that no block has left. */
  lemma EmptyRootRun()
    ensures exists w: World ::
      && w.size > 0 && w.start <= 2 <= w.end && BuildAuditSummary(Run(w, w.end).0, 1).pass
      && w.blocks(2).previousRoot != "" && w.blocks(2).previousRoot != LatestNonempty(w, 2)
  {
    var w := World(false, 1, 1, 2, "a", h => Item(Some(h), if h == 2 then "b" else "", Some(Receipt("", [], []))),
                   h => Some(Regenerated(Some(""), [], [])));
    assert Carried(w, 2) == "";
    forall h | 1 <= h <= 2 ensures GoodAt(w, h) { }
    hide Run;
    assert GoodUpTo(w, w.end);
    PassIffGood(w, 1);
    assert LatestNonempty(w, 2) == LatestNonempty(w, 1) == "a";
  }
}
