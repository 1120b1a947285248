/** The action KV batch collector: `ActionKvBatchCollector`. */
module ActionKv {
  import opened Wrappers

  const TOKENS_PER_PAGE: int := 128
  const UNUSED: int := -1

  /** A page table: one row of page ids per resident slot; -1 marks an unused entry. */
  datatype PageTable = PageTable(maxPagesPerSeq: nat, numPages: int, rows: seq<seq<int>>) {
    predicate Valid() {
      forall s :: 0 <= s < |rows| ==>
        |rows[s]| == maxPagesPerSeq && forall i :: 0 <= i < maxPagesPerSeq ==> UNUSED <= rows[s][i] < numPages
    }
  }

  datatype Snapshot = Snapshot(finalKvLength: int, pageIds: seq<int>)

  /** A queued device-to-host copy of one length. */
  datatype Copy = Copy(cell: nat, value: int)

  /** The dense batch handed to the action model. */
  datatype View = View(pageTable: seq<seq<int>>, kvLengths: seq<int>, mropeDeltas: seq<int>, batchSize: nat)

  // ------------------------------------------------------------------------------------ event history

  /** One active slot as one capture saw it: whose request it was, whether it had finished, and its page row
      and KV length at that moment. */
  datatype Seen = Seen(original: nat, finished: bool, row: seq<int>, length: int)

  datatype Terminal = Terminal(row: seq<int>, length: int)

  /** What was seen of request `o` when it was first seen finished. */
  function FirstFinished(history: seq<Seen>, o: nat): (t: Option<Terminal>)
  {
    if history == [] then None
    else if history[0].original == o && history[0].finished then Some(Terminal(history[0].row, history[0].length))
    else FirstFinished(history[1..], o)
  }

  /** Later captures do not change what was seen first. */
  lemma {:induction false} FirstFinishedAppend(history: seq<Seen>, more: seq<Seen>, o: nat)
    ensures FirstFinished(history + more, o)
         == if FirstFinished(history, o).Some? then FirstFinished(history, o) else FirstFinished(more, o)
    decreases history
  {
    if history == [] {
      assert history + more == more;
    } else {
      assert (history + more)[1..] == history[1..] + more;
      FirstFinishedAppend(history[1..], more, o);
    }
  }

  lemma FirstFinishedOne(x: Seen, o: nat)
    ensures FirstFinished([x], o)
         == if x.original == o && x.finished then Some(Terminal(x.row, x.length)) else None
  {
    assert [x][1..] == [];
  }

  /** How many pages a sequence of `length` tokens occupies. */
  function LivePages(length: int): (p: int)
    requires length > 0
    ensures (p - 1) * 128 < length <= p * 128
  {
    (length + TOKENS_PER_PAGE - 1) / TOKENS_PER_PAGE
  }

  /** The length is positive and fits the row, and every live page is mapped. */
  predicate Complete(t: Terminal) {
    && t.length > 0
    && LivePages(t.length) <= |t.row|
    && forall i :: 0 <= i < LivePages(t.length) ==> t.row[i] >= 0
  }

  function LiveRow(t: Terminal): (ids: seq<int>)
    requires Complete(t)
  {
    t.row[..LivePages(t.length)]
  }

  // ------------------------------------------------------------------------------------ dense batches

  /** The action requests among the first `n`, in order. */
  function ActionIndices(slots: seq<bool>, n: nat): (ids: seq<int>)
    requires n <= |slots|
    ensures |ids| <= n
  {
    if n == 0 then [] else ActionIndices(slots, n - 1) + (if slots[n - 1] then [n - 1] else [])
  }

  /** The dense numbering is an order-preserving bijection onto the action requests. */
  lemma {:induction false} ActionIndicesExact(slots: seq<bool>, n: nat)
    requires n <= |slots|
    ensures forall k :: 0 <= k < |ActionIndices(slots, n)| ==>
      0 <= ActionIndices(slots, n)[k] < n && slots[ActionIndices(slots, n)[k]]
    ensures forall j, k :: 0 <= j < k < |ActionIndices(slots, n)| ==>
      ActionIndices(slots, n)[j] < ActionIndices(slots, n)[k]
    ensures forall o :: 0 <= o < n && slots[o] ==> o in ActionIndices(slots, n)
  {
    if n > 0 {
      ActionIndicesExact(slots, n - 1);
      var ids, before := ActionIndices(slots, n), ActionIndices(slots, n - 1);
      forall o | 0 <= o < n && slots[o]
        ensures o in ids
      {
        if o < n - 1 {
          assert o in before;
        } else {
          assert ids[|before|] == o;
        }
      }
    }
  }

  /** Request `o` was seen finished, with a complete terminal state. */
  predicate Finished(history: seq<Seen>, o: nat) {
    FirstFinished(history, o).Some? && Complete(FirstFinished(history, o).value)
  }

  /** Every action request among the first `n` was seen finished, with a complete terminal state. */
  ghost predicate AllFinished(slots: seq<bool>, history: seq<Seen>, n: nat)
    requires n <= |slots|
  {
    forall o: nat :: o < n && slots[o] ==> Finished(history, o)
  }

  ghost function DenseLengths(slots: seq<bool>, history: seq<Seen>, n: nat): (ls: seq<int>)
    requires n <= |slots| && AllFinished(slots, history, n)
    ensures |ls| == |ActionIndices(slots, n)|
  {
    if n == 0 then []
    else
      DenseLengths(slots, history, n - 1)
      + if slots[n - 1] then [FirstFinished(history, n - 1).value.length] else []
  }

  ghost function DenseRows(slots: seq<bool>, history: seq<Seen>, n: nat): (rows: seq<seq<int>>)
    requires n <= |slots| && AllFinished(slots, history, n)
    ensures |rows| == |ActionIndices(slots, n)|
  {
    if n == 0 then []
    else
      DenseRows(slots, history, n - 1)
      + if slots[n - 1] then [LiveRow(FirstFinished(history, n - 1).value)] else []
  }

  function DenseDeltas(slots: seq<bool>, deltas: seq<int>, n: nat): (ds: seq<int>)
    requires n <= |slots| == |deltas|
    ensures |ds| == |ActionIndices(slots, n)|
  {
    if n == 0 then [] else DenseDeltas(slots, deltas, n - 1) + (if slots[n - 1] then [deltas[n - 1]] else [])
  }

  /** Row `k` of everything belongs to the request `ActionIndices(slots, n)[k]`. */
  lemma {:induction false} DenseRowBelongs(slots: seq<bool>, deltas: seq<int>, history: seq<Seen>, n: nat, k: nat)
    requires n <= |slots| == |deltas| && AllFinished(slots, history, n) && k < |ActionIndices(slots, n)|
    ensures var o := ActionIndices(slots, n)[k];
      && 0 <= o < n && slots[o]
      && DenseDeltas(slots, deltas, n)[k] == deltas[o]
      && DenseLengths(slots, history, n)[k] == FirstFinished(history, o).value.length
      && DenseRows(slots, history, n)[k] == LiveRow(FirstFinished(history, o).value)
  {
    hide LiveRow, Complete, FirstFinished;
    if k < |ActionIndices(slots, n - 1)| {
      DenseRowBelongs(slots, deltas, history, n - 1, k);
    }
  }

  /** `view` is the dense batch that the request and the history determine. */
  ghost predicate IsDense(view: View, slots: seq<bool>, deltas: seq<int>, history: seq<Seen>)
    requires |slots| == |deltas|
  {
    && AllFinished(slots, history, |slots|)
    && view.batchSize == |ActionIndices(slots, |slots|)| <= |view.pageTable|
    && view.kvLengths == DenseLengths(slots, history, |slots|)
    && view.mropeDeltas == DenseDeltas(slots, deltas, |slots|)
    && forall k :: 0 <= k < view.batchSize ==> LiveEntries(view.pageTable[k], DenseRows(slots, history, |slots|)[k])
  }

  /** A table row holds `ids` and nothing after them. */
  predicate LiveEntries(row: seq<int>, ids: seq<int>) {
    |ids| <= |row| && row[..|ids|] == ids && forall i :: |ids| <= i < |row| ==> row[i] == UNUSED
  }

  // ----------------------------------------------------------------------------------------- captures

  /** The arguments of one `captureFinished` call. */
  datatype Round = Round(pageTable: PageTable, lengths: seq<int>, finished: seq<bool>, originals: seq<int>,
                         residents: seq<int>) {
    predicate Sized() {
      |finished| == |originals| == |residents| <= |lengths|
    }

    predicate NonNegative() {
      forall i :: 0 <= i < |originals| ==> originals[i] >= 0
    }

    /** Active slots belong to different requests, all among the first `n`. */
    predicate Injective(n: nat) {
      && (forall i :: 0 <= i < |originals| ==> 0 <= originals[i] < n)
      && forall i, j :: 0 <= i < j < |originals| ==> originals[i] != originals[j]
    }

    /** Every finished slot has a resident row. */
    predicate Resident()
      requires Sized()
    {
      forall i :: 0 <= i < |finished| && finished[i] ==> 0 <= residents[i] < |pageTable.rows|
    }

    /** What the capture sees of slot `i`. A slot without a row of its own is never used. */
    function See(i: nat): Seen
      requires Sized() && i < |finished| && originals[i] >= 0
    {
      var row := if 0 <= residents[i] < |pageTable.rows| then pageTable.rows[residents[i]]
                 else seq(pageTable.maxPagesPerSeq, _ => UNUSED);
      Seen(originals[i], finished[i], row, lengths[i])
    }

    /** What the capture sees of the first `n` active slots. */
    function SeeTo(n: nat): (xs: seq<Seen>)
      requires Sized() && n <= |finished| && forall i :: 0 <= i < n ==> originals[i] >= 0
      ensures |xs| == n
    {
      seq(n, i requires 0 <= i < n => See(i))
    }
  }

  // --------------------------------------------------------------------------------------- the stream

  /** The host buffer once the queued copies have landed, in order. */
  function Landed(host: seq<int>, queue: seq<Copy>): (r: seq<int>)
    ensures |r| == |host|
    decreases queue
  {
    if queue == [] then host
    else if queue[0].cell < |host| then Landed(host[queue[0].cell := queue[0].value], queue[1..])
    else Landed(host, queue[1..])
  }

  lemma {:induction false} LandedAppend(host: seq<int>, queue: seq<Copy>, c: Copy)
    requires c.cell < |host|
    ensures Landed(host, queue + [c]) == Landed(host, queue)[c.cell := c.value]
    decreases queue
  {
    if queue == [] {
      assert [c][1..] == [];
      assert queue + [c] == [c];
    } else {
      assert (queue + [c])[1..] == queue[1..] + [c];
      LandedAppend(if queue[0].cell < |host| then host[queue[0].cell := queue[0].value] else host, queue[1..], c);
    }
  }

  class ActionKvBatchCollector {
    const mMaxBatch: nat
    const maxPagesPerSeq: nat
    const numPages: int
    var mPageTable: seq<seq<int>>
    const mHostLengths: array<int>
    var mDeviceLengths: seq<int>
    var mActionSlots: seq<bool>
    var mRequestMropeDeltas: seq<int>
    var mPending: seq<bool>
    var mByOriginalIndex: seq<Option<Snapshot>>
    var mOriginalRequestIndices: seq<int>
    var mDenseMropeDeltas: seq<int>
    var mMaterialized: bool

    /** The copies into `mHostLengths` that the stream has not done yet. */
    var queue: seq<Copy>

    /** How many of them an earlier request has left behind. */
    ghost var stale: nat

    /** Everything the captures of the current request have seen, slot by slot. */
    ghost var history: seq<Seen>

    constructor (maxBatch: nat, maxPagesPerSeq: nat, numPages: int)
      requires maxBatch > 0 && maxPagesPerSeq > 0 && numPages > 0
      ensures mMaxBatch == maxBatch && this.maxPagesPerSeq == maxPagesPerSeq && this.numPages == numPages
      ensures Shape() && fresh(mHostLengths) && mActionSlots == [] && Valid()
    {
      mMaxBatch := maxBatch;
      this.maxPagesPerSeq := maxPagesPerSeq;
      this.numPages := numPages;
      mPageTable := seq(maxBatch, _ => seq(maxPagesPerSeq, _ => UNUSED));
      mHostLengths := new int[maxBatch](_ => 0);
      mDeviceLengths := [];
      mActionSlots, mRequestMropeDeltas, mPending, mByOriginalIndex := [], [], [], [];
      mOriginalRequestIndices, mDenseMropeDeltas, mMaterialized := [], [], false;
      queue, stale, history := [], 0, [];
    }

    /** What holds at all times, also after a failed call. */
    ghost predicate Shape()
      reads `mPageTable
    {
      && mHostLengths.Length == mMaxBatch == |mPageTable| && numPages > 0
      && forall s :: 0 <= s < mMaxBatch ==> |mPageTable[s]| == maxPagesPerSeq
    }

    /** The state is what the history makes it. */
    ghost predicate Valid()
      reads `mPageTable, `mActionSlots, `mRequestMropeDeltas, `mPending, `mByOriginalIndex, `queue, `stale, `history
      reads mHostLengths
    {
      && Shape()
      && |mActionSlots| == |mRequestMropeDeltas| == |mPending| == |mByOriginalIndex| <= mMaxBatch
      && (forall i :: 0 <= i < |history| ==> RowOk(history[i].row))
      && QueueOk()
      && forall o: nat :: o < |mActionSlots| ==> SlotOk(o)
    }

    /** The copies of this request are for pending slots, and no two of them share a host cell. */
    ghost predicate QueueOk()
      reads `mPending, `queue, `stale
    {
      && stale <= |queue|
      && (forall i :: stale <= i < |queue| ==> queue[i].cell < |mPending| && mPending[queue[i].cell])
      && forall i, j :: stale <= i < j < |queue| ==> queue[i].cell != queue[j].cell
    }

    ghost predicate RowOk(row: seq<int>) {
      |row| == maxPagesPerSeq && forall i :: 0 <= i < |row| ==> UNUSED <= row[i] < numPages
    }

    /** A request without an action never has a snapshot. An action request has one from its first finished
        capture on: the whole row while its length is on the way, the live pages and the length after that. */
    ghost predicate SlotOk(o: nat)
      requires Shape() && o < |mActionSlots| == |mPending| == |mByOriginalIndex| <= mMaxBatch
      reads `mPageTable, `mActionSlots, `mPending, `mByOriginalIndex, `queue, `history, mHostLengths
    {
      var t := FirstFinished(history, o);
      if !mActionSlots[o] || t.None? then mByOriginalIndex[o].None? && !mPending[o]
      else
        && mByOriginalIndex[o].Some?
        && if mPending[o]
           then mByOriginalIndex[o].value.pageIds == t.value.row && Landed(mHostLengths[..], queue)[o] == t.value.length
           else Complete(t.value) && mByOriginalIndex[o].value == Snapshot(t.value.length, LiveRow(t.value))
    }

    /** `beginRequest` */
    method BeginRequest(actionSlots: seq<bool>, mropeDeltas: seq<int>) returns (ok: bool)
      requires Shape()
      modifies this
      ensures Shape() && queue == old(queue)
      ensures ok <==> |actionSlots| <= mMaxBatch && |actionSlots| == |mropeDeltas| && true in actionSlots
      ensures ok ==> Valid() && history == [] && !mMaterialized && forall o :: 0 <= o < |mPending| ==> !mPending[o]
      ensures ok ==> mActionSlots == actionSlots && mRequestMropeDeltas == mropeDeltas
    {
      if |actionSlots| > mMaxBatch || |actionSlots| != |mropeDeltas| || true !in actionSlots {
        return false;
      }
      mActionSlots := actionSlots;
      mRequestMropeDeltas := mropeDeltas;
      mPending := seq(|actionSlots|, _ => false);
      mByOriginalIndex := seq(|actionSlots|, _ => None);
      mOriginalRequestIndices := [];
      mDenseMropeDeltas := [];
      mMaterialized := false;
      history := [];
      stale := |queue|;
      ok := true;
    }

    /** The stream does all queued copies. */
    method Synchronize()
      requires Shape()
      modifies `queue, `stale, mHostLengths
      ensures queue == [] && stale == 0 && mHostLengths[..] == Landed(old(mHostLengths[..]), old(queue))
    {
      ghost var goal := Landed(mHostLengths[..], queue);
      while queue != []
        invariant Landed(mHostLengths[..], queue) == goal
        decreases |queue|
      {
        var c := queue[0];
        ghost var host := mHostLengths[..];
        if c.cell < mHostLengths.Length {
          mHostLengths[c.cell] := c.value;
          assert mHostLengths[..] == host[c.cell := c.value];
        }
        queue := queue[1..];
      }
      stale := 0;
    }

    /** Waiting for the stream keeps the invariant. */
    method SynchronizeValid()
      requires Valid()
      modifies `queue, `stale, mHostLengths
      ensures Valid() && queue == []
    {
      Synchronize();
      assert forall o: nat :: o < |mActionSlots| ==> old(SlotOk(o));
      forall o: nat | o < |mActionSlots|
        ensures SlotOk(o)
      {
        assert old(SlotOk(o));
      }
    }

    /** One turn of the loop in `captureFinished`, for slot `i`, whose mapping has been checked. */
    method CaptureSlot(c: Round, i: nat) returns (ok: bool)
      requires Valid() && c.Sized() && i < |c.finished| && 0 <= c.originals[i] < |mActionSlots|
      requires Compatible(c.pageTable)
      modifies `mPending, `mByOriginalIndex, `queue, `history
      ensures Shape()
      ensures ok <==> (old(Wanted(history, c, i)) ==> 0 <= c.residents[i] < |c.pageTable.rows|)
      ensures ok ==> Valid() && history == old(history) + [c.See(i)]
      ensures ok ==>
        mPending == if old(Wanted(history, c, i)) then old(mPending)[c.originals[i] := true] else old(mPending)
    {
      hide Complete, LiveRow, Landed, FirstFinished;
      var original := c.originals[i];
      assert SlotOk(original);
      ghost var seen := c.See(i);
      forall o: nat
        ensures FirstFinished(history + [seen], o)
             == if FirstFinished(history, o).Some? then FirstFinished(history, o)
                else if o == original && c.finished[i] then Some(Terminal(seen.row, seen.length)) else None
      {
        FirstFinishedAppend(history, [seen], o);
        FirstFinishedOne(seen, o);
      }
      if !c.finished[i] || !mActionSlots[original] || mPending[original] || mByOriginalIndex[original].Some? {
        label Skipped:
        history := history + [seen];
        forall o: nat | o < |mActionSlots|
          ensures SlotOk(o)
        {
          assert old@Skipped(SlotOk(o));
        }
        return true;
      }
      var residentSlot := c.residents[i];
      if !(0 <= residentSlot < |c.pageTable.rows|) {
        return false;
      }
      LandedAppend(mHostLengths[..], queue, Copy(original, c.lengths[i]));
      label Captured:
      mByOriginalIndex := mByOriginalIndex[original := Some(Snapshot(0, c.pageTable.rows[residentSlot]))];
      mPending := mPending[original := true];
      queue := queue + [Copy(original, c.lengths[i])];
      history := history + [seen];
      forall o: nat | o < |mActionSlots|
        ensures SlotOk(o)
      {
        assert old@Captured(SlotOk(o));
      }
      ok := true;
    }

    /** After the history `h`, slot `i` is captured: an action request, finished, and not seen finished before. */
    ghost predicate Wanted(h: seq<Seen>, c: Round, i: nat)
      requires c.Sized() && i < |c.finished| && 0 <= c.originals[i] < |mActionSlots|
      reads `mActionSlots
    {
      c.finished[i] && mActionSlots[c.originals[i]] && FirstFinished(h, c.originals[i]).None?
    }

    /** Pending are the requests that were so in `before`, and those first seen finished since the history `h`. */
    ghost predicate PendingSince(before: seq<bool>, h: seq<Seen>)
      reads `mActionSlots, `mPending, `history
    {
      && |before| == |mPending| == |mActionSlots|
      && forall o: nat :: o < |before| ==>
        (mPending[o] <==>
          before[o] || (mActionSlots[o] && FirstFinished(h, o).None? && FirstFinished(history, o).Some?))
    }

    predicate Compatible(pageTable: PageTable) {
      pageTable.Valid() && pageTable.maxPagesPerSeq == maxPagesPerSeq && pageTable.numPages == numPages
    }

    /** One turn of the loop: check the mapping of slot `slot`, then capture it. `h0` is the history before the call. */
    method CaptureNext(c: Round, slot: nat, seen: set<int>, ghost h0: seq<Seen>, ghost p0: seq<bool>) returns (ok: bool)
      requires Valid() && c.Sized() && slot < |c.finished| && Compatible(c.pageTable)
      requires forall i :: 0 <= i < slot ==> 0 <= c.originals[i] < |mActionSlots|
      requires forall o :: o in seen <==> o in c.originals[..slot]
      requires history == h0 + c.SeeTo(slot) && PendingSince(p0, h0)
      modifies `mPending, `mByOriginalIndex, `queue, `history
      ensures Shape()
      ensures ok <==>
        && 0 <= c.originals[slot] < |mActionSlots| && c.originals[slot] !in c.originals[..slot]
        && (Wanted(h0, c, slot) ==> 0 <= c.residents[slot] < |c.pageTable.rows|)
      ensures ok ==> Valid() && history == h0 + c.SeeTo(slot + 1) && PendingSince(p0, h0)
    {
      hide Landed, Complete, LiveRow, FirstFinished, SlotOk, RowOk, QueueOk, PageTable.Valid;
      var original := c.originals[slot];
      if !(0 <= original < |mActionSlots|) {
        return false;
      }
      if original in seen {
        return false;
      }
      forall i | 0 <= i < slot
        ensures c.originals[i] != original
      {
        assert c.originals[..slot][i] == c.originals[i];
      }
      UnseenUnchanged(h0, c, slot, original);
      ghost var before := history;
      ok := CaptureSlot(c, slot);
      if ok {
        forall o: nat | o < |p0|
          ensures FirstFinished(history, o).Some? <==>
            FirstFinished(before, o).Some? || (o == original && c.finished[slot])
        {
          FirstFinishedAppend(before, [c.See(slot)], o);
          FirstFinishedOne(c.See(slot), o);
        }
      }
      assert c.SeeTo(slot + 1) == c.SeeTo(slot) + [c.See(slot)];
    }

    lemma SeenNothing(c: Round)
      requires c.Sized()
      ensures c.SeeTo(0) == []
    {
    }

    lemma PendingAtFirst()
      requires |mPending| == |mActionSlots|
      ensures PendingSince(mPending, history)
    {
    }

    /** `captureFinished`, for any renumbering of the active batch. */
    method CaptureFinished(c: Round) returns (ok: bool)
      requires Valid() && c.pageTable.Valid()
      modifies this
      ensures Shape() && mActionSlots == old(mActionSlots) && mRequestMropeDeltas == old(mRequestMropeDeltas)
      ensures mMaterialized == old(mMaterialized)
      ensures ok <==>
        && !mMaterialized && c.Sized() && Compatible(c.pageTable) && c.Injective(|mActionSlots|)
        && forall i :: 0 <= i < |c.finished| && Wanted(old(history), c, i) ==> 0 <= c.residents[i] < |c.pageTable.rows|
      ensures ok ==> Valid() && history == old(history) + c.SeeTo(|c.finished|)
      ensures ok ==> PendingSince(old(mPending), old(history))
    {
      hide FirstFinished, SlotOk, QueueOk, RowOk, Complete, PendingSince, Wanted, Round.See, Round.SeeTo;
      PendingAtFirst();
      if mMaterialized || |c.finished| != |c.originals| || |c.finished| != |c.residents| {
        return false;
      }
      if c.pageTable.maxPagesPerSeq != maxPagesPerSeq || c.pageTable.numPages != numPages {
        return false;
      }
      if |c.lengths| < |c.finished| {
        return false;
      }
      var seen: set<int> := {};
      var slot := 0;
      ghost var h0, p0 := history, mPending;
      SeenNothing(c);
      assert history == h0 + c.SeeTo(0);
      while slot < |c.finished|
        invariant 0 <= slot <= |c.finished| && Valid()
        invariant mActionSlots == old(mActionSlots) && mRequestMropeDeltas == old(mRequestMropeDeltas)
        invariant mMaterialized == old(mMaterialized)
        invariant forall i :: 0 <= i < slot ==> 0 <= c.originals[i] < |mActionSlots|
        invariant forall o :: o in seen <==> o in c.originals[..slot]
        invariant forall i, j :: 0 <= i < j < slot ==> c.originals[i] != c.originals[j]
        invariant history == h0 + c.SeeTo(slot) && PendingSince(p0, h0)
        invariant forall i :: 0 <= i < slot && Wanted(h0, c, i) ==> 0 <= c.residents[i] < |c.pageTable.rows|
      {
        var captured := CaptureNext(c, slot, seen, h0, p0);
        if !captured {
          return false;
        }
        assert c.originals[..slot + 1] == c.originals[..slot] + [c.originals[slot]];
        seen := seen + {c.originals[slot]};
        slot := slot + 1;
      }
      ok := true;
    }

    /** `completeCapture`, once the stream is synchronized. */
    method CompleteCapture() returns (ok: bool)
      requires Valid() && queue == []
      modifies `mPending, `mByOriginalIndex
      ensures Shape()
      ensures ok <==> !mMaterialized && forall o: nat :: o < |mActionSlots| && old(mPending[o]) ==>
        Finished(history, o)
      ensures ok ==> Valid() && forall o :: 0 <= o < |mPending| ==> !mPending[o]
    {
      hide FirstFinished;
      if mMaterialized {
        return false;
      }
      var original := 0;
      while original < |mPending|
        invariant 0 <= original <= |mPending| && Valid()
        invariant |mPending| == old(|mPending|)
        invariant forall o :: original <= o < |mPending| ==> mPending[o] == old(mPending[o])
        invariant forall o: nat :: o < original ==> !mPending[o]
        invariant forall o: nat :: o < original && old(mPending[o]) ==> Finished(history, o)
      {
        if mPending[original] {
          var done := CompleteOne(original);
          if !done {
            return false;
          }
        }
        original := original + 1;
      }
      ok := true;
    }

    /** The length of a pending snapshot has arrived. */
    method CompleteOne(original: nat) returns (ok: bool)
      requires Valid() && queue == [] && original < |mPending| && mPending[original]
      modifies `mPending, `mByOriginalIndex
      ensures Shape()
      ensures ok <==> Finished(history, original)
      ensures ok ==> Valid() && mPending == old(mPending)[original := false]
    {
      hide FirstFinished;
      assert SlotOk(original);
      if mByOriginalIndex[original].None? {
        assert false;
      }
      var snapshot := mByOriginalIndex[original].value;
      var length := mHostLengths[original];
      assert length == Landed(mHostLengths[..], [])[original];
      if length <= 0 {
        return false;
      }
      var livePages := (length + TOKENS_PER_PAGE - 1) / TOKENS_PER_PAGE;
      if livePages > |snapshot.pageIds| {
        return false;
      }
      var ids := snapshot.pageIds[..livePages];
      if exists i :: 0 <= i < |ids| && ids[i] < 0 {
        return false;
      }
      label Before:
      mByOriginalIndex := mByOriginalIndex[original := Some(Snapshot(length, ids))];
      mPending := mPending[original := false];
      forall o: nat | o < |mActionSlots|
        ensures SlotOk(o)
      {
        assert old@Before(SlotOk(o));
      }
      ok := true;
    }

    /** `materialize`: the dense batch is a function of the request and of the history alone. */
    method Materialize() returns (ok: bool, view: View)
      requires Valid()
      modifies this, mHostLengths
      ensures Shape()
      ensures ok <==> old(!mMaterialized && mActionSlots != [] && (forall o :: 0 <= o < |mPending| ==> !mPending[o])
                          && AllFinished(mActionSlots, history, |mActionSlots|))
      ensures ok ==> mMaterialized && Valid() && history == old(history)
      ensures ok ==> mActionSlots == old(mActionSlots) && mRequestMropeDeltas == old(mRequestMropeDeltas)
      ensures ok ==> IsDense(view, mActionSlots, mRequestMropeDeltas, history)
      ensures ok ==> mOriginalRequestIndices == ActionIndices(mActionSlots, |mActionSlots|)
      ensures ok ==> mDeviceLengths == view.kvLengths && view.pageTable == mPageTable
      ensures ok ==> forall k :: view.batchSize <= k < |mPageTable| ==> mPageTable[k] == old(mPageTable[k])
    {
      hide FirstFinished, Complete, LiveRow, LiveEntries, LiveIds, PageTable.Valid, RowOk, QueueOk, AllFinished;
      view := View([], [], [], 0);
      if mMaterialized || mActionSlots == [] || true in mPending {
        return false, view;
      }
      var actionCount := CountActions();
      ghost var was := mPageTable;
      var gathered, pageUpdates := GatherRows(actionCount);
      if !gathered {
        return false, view;
      }
      if |mOriginalRequestIndices| != actionCount {
        assert false;
      }
      label Gathered:
      SetRows(pageUpdates);
      mDeviceLengths := mHostLengths[..actionCount];
      mMaterialized := true;
      forall o: nat | o < |mActionSlots|
        ensures SlotOk(o)
      {
        assert old@Gathered(SlotOk(o));
      }
      view := View(mPageTable, mHostLengths[..actionCount], mDenseMropeDeltas, actionCount);
      ok := true;
    }

    /** `std::count` over the action slots. */
    method CountActions() returns (n: nat)
      requires Shape() && |mActionSlots| <= mMaxBatch
      ensures n == |ActionIndices(mActionSlots, |mActionSlots|)|
    {
      n := 0;
      var i := 0;
      while i < |mActionSlots|
        invariant 0 <= i <= |mActionSlots| && n == |ActionIndices(mActionSlots, i)|
      {
        if mActionSlots[i] {
          n := n + 1;
        }
        i := i + 1;
      }
    }

    /** The loop over the requests: dense lengths overwrite the host buffer, which no snapshot needs any more. */
    method GatherRows(actionCount: nat) returns (ok: bool, pageUpdates: seq<seq<int>>)
      requires Valid() && forall o :: 0 <= o < |mPending| ==> !mPending[o]
      requires actionCount == |ActionIndices(mActionSlots, |mActionSlots|)|
      modifies `mOriginalRequestIndices, `mDenseMropeDeltas, mHostLengths
      ensures ok <==> AllFinished(mActionSlots, history, |mActionSlots|)
      ensures ok ==> Valid() && mOriginalRequestIndices == ActionIndices(mActionSlots, |mActionSlots|)
      ensures ok ==> actionCount <= mMaxBatch
      ensures ok ==> mHostLengths[..actionCount] == DenseLengths(mActionSlots, history, |mActionSlots|)
      ensures ok ==> pageUpdates == DenseRows(mActionSlots, history, |mActionSlots|)
      ensures ok ==> mDenseMropeDeltas == DenseDeltas(mActionSlots, mRequestMropeDeltas, |mActionSlots|)
      ensures ok ==> forall k :: 0 <= k < |pageUpdates| ==> LiveIds(pageUpdates[k])
    {
      hide FirstFinished, PageTable.Valid, Complete, LiveRow, LiveIds, SlotOk, RowOk, QueueOk;
      mOriginalRequestIndices := [];
      mDenseMropeDeltas := [];
      pageUpdates := [];
      var original := 0;
      while original < |mActionSlots|
        invariant 0 <= original <= |mActionSlots| && Valid() && forall o :: 0 <= o < |mPending| ==> !mPending[o]
        invariant AllFinished(mActionSlots, history, original)
        invariant mOriginalRequestIndices == ActionIndices(mActionSlots, original)
        invariant mHostLengths[..|mOriginalRequestIndices|] == DenseLengths(mActionSlots, history, original)
        invariant pageUpdates == DenseRows(mActionSlots, history, original)
        invariant mDenseMropeDeltas == DenseDeltas(mActionSlots, mRequestMropeDeltas, original)
        invariant forall k :: 0 <= k < |pageUpdates| ==> LiveIds(pageUpdates[k])
      {
        LandedSlot(original);
        if !mActionSlots[original] {
          if mByOriginalIndex[original].Some? {
            assert false;
          }
        } else {
          if mByOriginalIndex[original].None? {
            return false, [];
          }
          var snapshot := mByOriginalIndex[original].value;
          var denseIndex := |mOriginalRequestIndices|;
          StoreLength(denseIndex, snapshot.finalKvLength);
          pageUpdates := pageUpdates + [snapshot.pageIds];
          mOriginalRequestIndices := mOriginalRequestIndices + [original];
          mDenseMropeDeltas := mDenseMropeDeltas + [mRequestMropeDeltas[original]];
        }
        original := original + 1;
      }
      ok := true;
    }

    /** A slot without a copy under way has the snapshot that the history says, if any. */
    lemma LandedSlot(o: nat)
      requires Valid() && o < |mActionSlots| && !mPending[o]
      ensures mByOriginalIndex[o].Some? <==> mActionSlots[o] && Finished(history, o)
      ensures mByOriginalIndex[o].Some? ==>
        var t := FirstFinished(history, o).value;
        mByOriginalIndex[o].value == Snapshot(t.length, LiveRow(t)) && LiveIds(LiveRow(t))
    {
      hide FirstFinished, Landed, Complete, LiveRow, LiveIds, RowOk, QueueOk;
      assert SlotOk(o);
      if mByOriginalIndex[o].Some? {
        RowOfFirst(history, o);
        LiveRowIds(FirstFinished(history, o).value);
      }
    }

    /** With no copy outstanding, the host buffer can be overwritten without harm. */
    method StoreLength(cell: nat, length: int)
      requires Valid() && cell < mMaxBatch && forall o :: 0 <= o < |mPending| ==> !mPending[o]
      modifies mHostLengths
      ensures Valid() && mHostLengths[..cell + 1] == old(mHostLengths[..cell]) + [length]
    {
      hide FirstFinished, Landed, Complete;
      ghost var before := mHostLengths[..cell];
      mHostLengths[cell] := length;
      assert mHostLengths[..cell + 1] == before + [length];
      forall o: nat | o < |mActionSlots|
        ensures SlotOk(o)
      {
        assert old(SlotOk(o));
      }
    }

    /** Page ids that `setRows` accepts. */
    predicate LiveIds(ids: seq<int>) {
      |ids| <= maxPagesPerSeq && forall i :: 0 <= i < |ids| ==> 0 <= ids[i] < numPages
    }

    /** The live part of a complete row is acceptable. */
    lemma LiveRowIds(t: Terminal)
      requires RowOk(t.row) && Complete(t)
      ensures LiveIds(LiveRow(t))
    {
    }

    /** A row in the history is a row of a page table. */
    lemma {:induction false} RowOfFirst(h: seq<Seen>, o: nat)
      requires forall i :: 0 <= i < |h| ==> RowOk(h[i].row)
      ensures FirstFinished(h, o).Some? ==> RowOk(FirstFinished(h, o).value.row)
      decreases h
    {
      if h != [] {
        RowOfFirst(h[1..], o);
      }
    }

    /** `KVPageTable::setRows` for slots `0..|updates|`; its own checks pass. */
    method SetRows(updates: seq<seq<int>>)
      requires Shape() && |updates| <= mMaxBatch && forall k :: 0 <= k < |updates| ==> LiveIds(updates[k])
      modifies `mPageTable
      ensures Shape()
      ensures forall k :: 0 <= k < |updates| ==> LiveEntries(mPageTable[k], updates[k])
      ensures forall k :: |updates| <= k < |mPageTable| ==> mPageTable[k] == old(mPageTable[k])
    {
      var k := 0;
      while k < |updates|
        invariant 0 <= k <= |updates| && Shape()
        invariant forall j :: 0 <= j < k ==> LiveEntries(mPageTable[j], updates[j])
        invariant forall j :: k <= j < |mPageTable| ==> mPageTable[j] == old(mPageTable[j])
      {
        var row := updates[k] + seq(maxPagesPerSeq - |updates[k]|, _ => UNUSED);
        assert row[..|updates[k]|] == updates[k];
        mPageTable := mPageTable[k := row];
        k := k + 1;
      }
    }
  }

  /** Other slots of the same capture do not change what was first seen of a request. */
  lemma UnseenUnchanged(before: seq<Seen>, c: Round, n: nat, o: nat)
    requires c.Sized() && n <= |c.finished|
    requires forall i :: 0 <= i < n ==> c.originals[i] >= 0 && c.originals[i] != o
    ensures FirstFinished(before + c.SeeTo(n), o) == FirstFinished(before, o)
  {
    FirstFinishedAppend(before, c.SeeTo(n), o);
    NobodysFirst(c.SeeTo(n), o);
  }

  // ---------------------------------------------------------------------------------------- whole runs

  /** What the runtime does between the start of a request and its end: it captures, any number of times, or it waits
      for the stream and completes what was captured. */
  datatype Event = Capture(round: Round) | Completion

  /** Everything that the captures of a run see. */
  function HistoryOf(events: seq<Event>): seq<Seen> {
    if events == [] then []
    else
      var before, e := HistoryOf(events[..|events| - 1]), events[|events| - 1];
      if e.Capture? && e.round.Sized() && e.round.NonNegative() then before + Sees(e.round) else before
  }

  function Sees(c: Round): seq<Seen>
    requires c.Sized() && c.NonNegative()
  {
    assert forall i :: 0 <= i < |c.finished| ==> c.originals[i] >= 0;
    c.SeeTo(|c.finished|)
  }

  /** Slot `i` of a well-formed capture belongs to request `o` and has finished. */
  predicate Finishes(e: Event, o: nat, i: nat) {
    && e.Capture? && e.round.Sized() && e.round.NonNegative()
    && i < |e.round.finished| && e.round.finished[i] && e.round.originals[i] == o
  }

  /** Slot `i` of event `e` is the first to show request `o` finished. */
  ghost predicate FirstShown(events: seq<Event>, o: nat, e: nat, i: nat) {
    && e < |events| && Finishes(events[e], o, i)
    && (forall d: nat, j: nat :: d < e ==> !Finishes(events[d], o, j))
    && forall j: nat :: j < i ==> !Finishes(events[e], o, j)
  }

  lemma {:induction false} RoundFirst(c: Round, n: nat, o: nat, i: nat)
    requires c.Sized() && c.NonNegative() && n <= |c.finished| && i <= n
    requires forall j: nat :: j < i ==> !(c.finished[j] && c.originals[j] == o)
    requires i < n ==> c.finished[i] && c.originals[i] == o
    ensures var t := FirstFinished(c.SeeTo(n), o);
      if i == n then t.None?
      else
        && t.Some? && t.value.length == c.lengths[i]
        && (0 <= c.residents[i] < |c.pageTable.rows| ==> t.value.row == c.pageTable.rows[c.residents[i]])
    decreases n
  {
    hide FirstFinished;
    if n == 0 {
      NobodysFirst(c.SeeTo(0), o);
    } else {
      assert c.SeeTo(n) == c.SeeTo(n - 1) + [c.See(n - 1)];
      FirstFinishedAppend(c.SeeTo(n - 1), [c.See(n - 1)], o);
      FirstFinishedOne(c.See(n - 1), o);
      RoundFirst(c, n - 1, o, if i < n - 1 then i else n - 1);
    }
  }

  /** The history says of a request what the arguments of the first capture that shows it finished say: the length
      and the page row of its slot in that capture. */
  lemma {:induction false} HistoryShown(events: seq<Event>, o: nat, e: nat, i: nat)
    requires FirstShown(events, o, e, i)
    ensures var c, t := events[e].round, FirstFinished(HistoryOf(events), o);
      && t.Some? && t.value.length == c.lengths[i]
      && (0 <= c.residents[i] < |c.pageTable.rows| ==> t.value.row == c.pageTable.rows[c.residents[i]])
    decreases |events|
  {
    hide FirstFinished;
    var k := |events| - 1;
    var most, last := events[..k], events[k];
    assert events == most + [last];
    if last.Capture? && last.round.Sized() && last.round.NonNegative() {
      FirstFinishedAppend(HistoryOf(most), Sees(last.round), o);
    }
    if e < k {
      HistoryShown(most, o, e, i);
    } else {
      forall d: nat, j: nat | d < |most|
        ensures !Finishes(most[d], o, j)
      {
        assert most[d] == events[d];
      }
      HistoryUnseen(most, o);
      forall j: nat | j < i
        ensures !(last.round.finished[j] && last.round.originals[j] == o)
      {
        assert !Finishes(events[e], o, j);
      }
      RoundFirst(last.round, |last.round.finished|, o, i);
    }
  }

  /** And it says nothing of a request that no capture shows finished. */
  lemma {:induction false} HistoryUnseen(events: seq<Event>, o: nat)
    requires forall d: nat, j: nat :: d < |events| ==> !Finishes(events[d], o, j)
    ensures FirstFinished(HistoryOf(events), o).None?
    decreases |events|
  {
    hide FirstFinished;
    if events == [] {
      NobodysFirst([], o);
    } else {
      var k := |events| - 1;
      var most, last := events[..k], events[k];
      forall d: nat, j: nat | d < |most|
        ensures !Finishes(most[d], o, j)
      {
        assert most[d] == events[d];
      }
      HistoryUnseen(most, o);
      if last.Capture? && last.round.Sized() && last.round.NonNegative() {
        FirstFinishedAppend(HistoryOf(most), Sees(last.round), o);
        forall j: nat | j < |last.round.finished|
          ensures !(last.round.finished[j] && last.round.originals[j] == o)
        {
          assert !Finishes(events[k], o, j);
        }
        RoundFirst(last.round, |last.round.finished|, o, |last.round.finished|);
      }
    }
  }

  /** The first slot of a round that shows `o` finished, or the number of slots. */
  lemma {:induction false} FirstSlot(e: Event, n: nat, o: nat) returns (i: nat)
    ensures i <= n && forall j: nat :: j < i ==> !Finishes(e, o, j)
    ensures i < n ==> Finishes(e, o, i)
  {
    if n == 0 {
      i := 0;
    } else {
      i := FirstSlot(e, n - 1, o);
      if i == n - 1 && !Finishes(e, o, i) {
        i := n;
      }
    }
  }

  /** A request of which the history says something is shown finished by a first capture. */
  lemma {:induction false} ShownFirst(events: seq<Event>, o: nat) returns (e: nat, i: nat)
    requires FirstFinished(HistoryOf(events), o).Some?
    ensures FirstShown(events, o, e, i)
    decreases |events|
  {
    hide FirstFinished, Finishes, HistoryOf;
    if events == [] {
      HistoryUnseen(events, o);
      assert false;
    } else {
      var k := |events| - 1;
      var most, last := events[..k], events[k];
      if FirstFinished(HistoryOf(most), o).Some? {
        e, i := ShownFirst(most, o);
      } else {
        e := k;
        i := ShownLast(events, o);
      }
    }
  }

  lemma ShownLast(events: seq<Event>, o: nat) returns (i: nat)
    requires events != [] && FirstFinished(HistoryOf(events), o).Some?
    requires FirstFinished(HistoryOf(events[..|events| - 1]), o).None?
    ensures FirstShown(events, o, |events| - 1, i)
  {
    hide FirstFinished, HistoryOf;
    var k := |events| - 1;
    var most, last := events[..k], events[k];
    var n := if last.Capture? then |last.round.finished| else 0;
    i := FirstSlot(last, n, o);
    forall d: nat, j: nat | d < k
      ensures !Finishes(events[d], o, j)
    {
      if Finishes(events[d], o, j) {
        var d', j' := FirstEvent(most, o, d, j);
        HistoryShown(most, o, d', j');
      }
    }
    if i == n {
      HistoryUnseen(events, o);
    }
  }

  /** If some slot of some event shows `o` finished, one is the first to. */
  lemma {:induction false} FirstEvent(events: seq<Event>, o: nat, d: nat, j: nat) returns (e: nat, i: nat)
    requires d < |events| && Finishes(events[d], o, j)
    ensures FirstShown(events, o, e, i)
    decreases d, j
  {
    if d', j' :| 0 <= d' < d && 0 <= j' && Finishes(events[d'], o, j') {
      e, i := FirstEvent(events, o, d', j');
    } else if j' :| 0 <= j' < j && Finishes(events[d], o, j') {
      e, i := FirstEvent(events, o, d, j');
    } else {
      e, i := d, j;
    }
  }

  /** What had been seen when captures were last completed. */
  function CompletedOf(events: seq<Event>): seq<Seen> {
    if events == [] then []
    else if events[|events| - 1].Completion? then HistoryOf(events)
    else CompletedOf(events[..|events| - 1])
  }

  /** Every request first seen finished so far has a complete terminal state. */
  ghost predicate SeenComplete(slots: seq<bool>, h: seq<Seen>) {
    forall o: nat :: o < |slots| && slots[o] && FirstFinished(h, o).Some? ==> Complete(FirstFinished(h, o).value)
  }

  /** A slot that is newly finished has a row of its own. */
  ghost predicate NewlyResident(slots: seq<bool>, h: seq<Seen>, c: Round)
    requires c.Sized() && c.Injective(|slots|)
  {
    forall i :: 0 <= i < |c.finished| ==>
      c.finished[i] && slots[c.originals[i]] && FirstFinished(h, c.originals[i]).None? ==>
        0 <= c.residents[i] < |c.pageTable.rows|
  }

  /** The step `e` succeeds after the history `h`, for a collector that agrees with page tables as `like` does. */
  ghost predicate EventOk(slots: seq<bool>, like: ActionKvBatchCollector, h: seq<Seen>, e: Event) {
    match e
    case Capture(c) =>
      c.Sized() && like.Compatible(c.pageTable) && c.Injective(|slots|) && NewlyResident(slots, h, c)
    case Completion => SeenComplete(slots, h)
  }

  ghost predicate EventsOk(slots: seq<bool>, like: ActionKvBatchCollector, events: seq<Event>) {
    events == [] ||
    (var n := |events| - 1;
     EventsOk(slots, like, events[..n]) && EventOk(slots, like, HistoryOf(events[..n]), events[n]))
  }

  lemma {:induction false} EventsPrefix(slots: seq<bool>, like: ActionKvBatchCollector, events: seq<Event>, n: nat)
    requires n <= |events| && EventsOk(slots, like, events)
    ensures EventsOk(slots, like, events[..n])
    decreases |events|
  {
    hide EventOk;
    if n < |events| {
      var most := events[..|events| - 1];
      EventsPrefix(slots, like, most, n);
      assert most[..n] == events[..n];
    } else {
      assert events[..n] == events;
    }
  }

  /** What an earlier part of the run has first seen finished is what the whole run has. */
  lemma {:induction false} HistoryPrefix(events: seq<Event>, n: nat, o: nat)
    requires n <= |events| && FirstFinished(HistoryOf(events[..n]), o).Some?
    ensures FirstFinished(HistoryOf(events), o) == FirstFinished(HistoryOf(events[..n]), o)
    decreases |events|
  {
    hide FirstFinished;
    if n == |events| {
      assert events[..n] == events;
    } else {
      var most, e := events[..|events| - 1], events[|events| - 1];
      assert most[..n] == events[..n];
      HistoryPrefix(most, n, o);
      if e.Capture? && e.round.Sized() && e.round.NonNegative() {
        FirstFinishedAppend(HistoryOf(most), Sees(e.round), o);
      }
    }
  }

  lemma {:induction false} CompletedFirst(events: seq<Event>, o: nat)
    requires FirstFinished(CompletedOf(events), o).Some?
    ensures FirstFinished(HistoryOf(events), o) == FirstFinished(CompletedOf(events), o)
  {
    hide FirstFinished;
    if events == [] {
      NobodysFirst([], o);
    } else if events[|events| - 1].Capture? {
      var most, round := events[..|events| - 1], events[|events| - 1].round;
      CompletedFirst(most, o);
      if round.Sized() && round.NonNegative() {
        FirstFinishedAppend(HistoryOf(most), Sees(round), o);
      }
    }
  }

  /** The collector is where the events have brought it. */
  ghost predicate After(c: ActionKvBatchCollector, slots: seq<bool>, deltas: seq<int>, events: seq<Event>)
    reads c, c.mHostLengths
  {
    && c.Valid() && !c.mMaterialized && c.mActionSlots == slots && c.mRequestMropeDeltas == deltas
    && c.history == HistoryOf(events)
    && forall o: nat :: o < |slots| ==>
      (c.mPending[o] <==>
        slots[o] && FirstFinished(CompletedOf(events), o).None? && FirstFinished(HistoryOf(events), o).Some?)
  }

  /** One event. It succeeds exactly when it should. */
  method Step(c: ActionKvBatchCollector, ghost slots: seq<bool>, ghost deltas: seq<int>, ghost events: seq<Event>,
              e: Event)
    returns (ok: bool)
    requires After(c, slots, deltas, events) && (e.Capture? ==> e.round.pageTable.Valid())
    modifies c, c.mHostLengths
    ensures c.Shape() && (ok <==> EventOk(slots, c, HistoryOf(events), e))
    ensures ok ==> After(c, slots, deltas, events + [e])
  {
    match e {
      case Capture(round) =>
        ok := StepCapture(c, slots, deltas, events, round);
      case Completion =>
        ok := StepCompletion(c, slots, deltas, events);
    }
  }

  lemma EventsNext(events: seq<Event>, e: Event)
    ensures HistoryOf(events + [e]) == if e.Capture? && e.round.Sized() && e.round.NonNegative()
                                       then HistoryOf(events) + Sees(e.round)
                                       else HistoryOf(events)
    ensures CompletedOf(events + [e]) == if e.Completion? then HistoryOf(events) else CompletedOf(events)
  {
    assert (events + [e])[..|events|] == events;
  }

  method StepCapture(c: ActionKvBatchCollector, ghost slots: seq<bool>, ghost deltas: seq<int>,
                     ghost events: seq<Event>, round: Round)
    returns (ok: bool)
    requires After(c, slots, deltas, events) && round.pageTable.Valid()
    modifies c, c.mHostLengths
    ensures c.Shape() && (ok <==> EventOk(slots, c, HistoryOf(events), Capture(round)))
    ensures ok ==> After(c, slots, deltas, events + [Capture(round)])
  {
    hide FirstFinished, Complete, Landed, LiveRow, PageTable.Valid, HistoryOf, CompletedOf;
    ghost var h := HistoryOf(events);
    WantedIs(c, round, h);
    ok := c.CaptureFinished(round);
    if ok {
      EventsNext(events, Capture(round));
      forall o: nat | o < |slots|
        ensures c.mPending[o] <==>
          slots[o] && FirstFinished(CompletedOf(events), o).None? && FirstFinished(c.history, o).Some?
      {
        FirstFinishedAppend(h, Sees(round), o);
        if FirstFinished(CompletedOf(events), o).Some? {
          CompletedFirst(events, o);
        }
      }
    }
  }

  /** What the collector captures is what the run says is newly finished. */
  lemma WantedIs(c: ActionKvBatchCollector, round: Round, h: seq<Seen>)
    ensures round.Sized() && round.Injective(|c.mActionSlots|) ==>
      (NewlyResident(c.mActionSlots, h, round) <==>
        forall i :: 0 <= i < |round.finished| && c.Wanted(h, round, i) ==>
          0 <= round.residents[i] < |round.pageTable.rows|)
  {
    hide FirstFinished;
    if round.Sized() && round.Injective(|c.mActionSlots|) {
      forall i | 0 <= i < |round.finished|
        ensures c.Wanted(h, round, i) <==>
          round.finished[i] && c.mActionSlots[round.originals[i]] && FirstFinished(h, round.originals[i]).None?
      {
      }
    }
  }

  method StepCompletion(c: ActionKvBatchCollector, ghost slots: seq<bool>, ghost deltas: seq<int>,
                        ghost events: seq<Event>)
    returns (ok: bool)
    requires After(c, slots, deltas, events)
    modifies c, c.mHostLengths
    ensures c.Shape() && (ok <==> EventOk(slots, c, HistoryOf(events), Completion))
    ensures ok ==> After(c, slots, deltas, events + [Completion])
  {
    hide FirstFinished, Complete, Landed, LiveRow, PageTable.Valid, HistoryOf, CompletedOf;
    EventsNext(events, Completion);
    c.SynchronizeValid();
    PendingOrComplete(c);
    ok := c.CompleteCapture();
  }

  /** Exactly the requests that were seen finished, pending or not, must be complete. */
  lemma PendingOrComplete(c: ActionKvBatchCollector)
    requires c.Valid()
    ensures (forall o: nat :: o < |c.mActionSlots| && c.mPending[o] ==> Finished(c.history, o))
       <==> SeenComplete(c.mActionSlots, c.history)
  {
    hide FirstFinished, Complete, Landed, LiveRow;
    forall o: nat | o < |c.mActionSlots|
      ensures c.mPending[o] ==> c.mActionSlots[o] && FirstFinished(c.history, o).Some?
      ensures c.mActionSlots[o] && FirstFinished(c.history, o).Some? && !c.mPending[o] ==>
        Complete(FirstFinished(c.history, o).value)
    {
      assert c.SlotOk(o);
    }
  }

  /** At the end nothing is pending and all is finished exactly if all was finished when captures were last
      completed. */
  lemma EndIs(c: ActionKvBatchCollector, slots: seq<bool>, deltas: seq<int>, events: seq<Event>)
    requires After(c, slots, deltas, events)
    ensures ((forall o :: 0 <= o < |c.mPending| ==> !c.mPending[o]) && AllFinished(slots, c.history, |slots|))
       <==> AllFinished(slots, CompletedOf(events), |slots|)
  {
    hide FirstFinished, Complete, Landed, LiveRow, HistoryOf, CompletedOf;
    forall o: nat | o < |slots| && FirstFinished(CompletedOf(events), o).Some?
      ensures FirstFinished(c.history, o) == FirstFinished(CompletedOf(events), o)
    {
      CompletedFirst(events, o);
    }
    if forall o :: 0 <= o < |c.mPending| ==> !c.mPending[o] {
      if AllFinished(slots, c.history, |slots|) {
        forall o: nat | o < |slots| && slots[o]
          ensures Finished(CompletedOf(events), o)
        {
          assert Finished(c.history, o) && !c.mPending[o];
        }
      }
    }
    if AllFinished(slots, CompletedOf(events), |slots|) {
      forall o: nat | o < |slots|
        ensures !c.mPending[o] && (slots[o] ==> Finished(c.history, o))
      {
        assert slots[o] ==> Finished(CompletedOf(events), o);
      }
    }
  }

  /** In terms of its length and its page row, a request can be materialised if the length is positive and the pages it
      takes are there. */
  lemma FinishedShown(events: seq<Event>, o: nat, e: nat, i: nat)
    requires FirstShown(events, o, e, i)
    requires 0 <= events[e].round.residents[i] < |events[e].round.pageTable.rows|
    ensures var length := events[e].round.lengths[i];
      var row := events[e].round.pageTable.rows[events[e].round.residents[i]];
      Finished(HistoryOf(events), o) <==>
        length > 0 && length <= 128 * |row| && forall p :: 0 <= p < |row| && p * 128 < length ==> row[p] >= 0
  {
    hide FirstFinished, HistoryOf;
    HistoryShown(events, o, e, i);
    var length := events[e].round.lengths[i];
    var row := events[e].round.pageTable.rows[events[e].round.residents[i]];
    if length > 0 {
      var pages := LivePages(length);
      forall p | 0 <= p < |row|
        ensures p < pages <==> p * 128 < length
      {
      }
    }
  }

  /** In a successful run the first slot to show an action request finished has a row of its own. */
  lemma ShownResident(slots: seq<bool>, like: ActionKvBatchCollector, events: seq<Event>, o: nat, e: nat, i: nat)
    requires EventsOk(slots, like, events) && o < |slots| && slots[o] && FirstShown(events, o, e, i)
    ensures 0 <= events[e].round.residents[i] < |events[e].round.pageTable.rows|
  {
    hide FirstFinished, HistoryOf;
    var before := events[..e];
    EventsPrefix(slots, like, events, e + 1);
    assert events[..e + 1][..e] == before;
    forall d: nat, j: nat | d < |before|
      ensures !Finishes(before[d], o, j)
    {
      assert before[d] == events[d];
    }
    HistoryUnseen(before, o);
  }

  /** Row `k` of the batch is the `k`-th action request as the first capture that shows it finished gives it: its
      length, its live pages and nothing after them, and its delta. */
  ghost predicate RowShown(view: View, slots: seq<bool>, deltas: seq<int>, events: seq<Event>, k: nat)
    requires |slots| == |deltas|
    requires k < |ActionIndices(slots, |slots|)| && k < |view.kvLengths| && k < |view.mropeDeltas|
    requires k < |view.pageTable|
  {
    var o := ActionIndices(slots, |slots|)[k];
    && 0 <= o < |slots| && slots[o] && view.mropeDeltas[k] == deltas[o]
    && exists e: nat, i: nat :: FirstShown(events, o, e, i)
         && RowIs(view.pageTable[k], view.kvLengths[k], events[e].round, i)
  }

  predicate RowIs(row: seq<int>, length: int, c: Round, i: nat) {
    && c.Sized() && i < |c.finished| && 0 <= c.residents[i] < |c.pageTable.rows|
    && length == c.lengths[i] > 0
    && LivePages(length) <= |c.pageTable.rows[c.residents[i]]| && LivePages(length) <= |row|
    && row[..LivePages(length)] == c.pageTable.rows[c.residents[i]][..LivePages(length)]
    && forall p :: LivePages(length) <= p < |row| ==> row[p] == -1
  }

  lemma DenseShown(c: ActionKvBatchCollector, view: View, slots: seq<bool>, deltas: seq<int>, events: seq<Event>,
                   k: nat)
    requires |slots| == |deltas| && EventsOk(slots, c, events)
    requires IsDense(view, slots, deltas, HistoryOf(events)) && k < view.batchSize
    ensures RowShown(view, slots, deltas, events, k)
  {
    hide FirstFinished, HistoryOf, EventsOk, DenseRows, DenseLengths, DenseDeltas, ActionIndices;
    DenseRowBelongs(slots, deltas, HistoryOf(events), |slots|, k);
    var o := ActionIndices(slots, |slots|)[k];
    assert Finished(HistoryOf(events), o);
    var e, i := ShownFirst(events, o);
    HistoryShown(events, o, e, i);
    ShownResident(slots, c, events, o, e, i);
    assert RowIs(view.pageTable[k], view.kvLengths[k], events[e].round, i);
  }

  /** A whole request, as the runtime drives the collector, with any number of captures between completions. It
      succeeds exactly when the request is accepted, every step succeeds, and every action request was finished, with
      a complete terminal state, when captures were last completed. The dense batch is then determined by what was
      first seen finished. */
  method RunRequest(c: ActionKvBatchCollector, slots: seq<bool>, deltas: seq<int>, events: seq<Event>)
    returns (ok: bool, view: View)
    requires c.Shape() && forall e :: 0 <= e < |events| && events[e].Capture? ==> events[e].round.pageTable.Valid()
    modifies c, c.mHostLengths
    ensures ok <==>
      && |slots| <= c.mMaxBatch && |slots| == |deltas| && true in slots
      && EventsOk(slots, c, events) && AllFinished(slots, CompletedOf(events), |slots|)
    ensures ok ==> IsDense(view, slots, deltas, HistoryOf(events))
    ensures ok ==> forall k :: 0 <= k < view.batchSize ==> RowShown(view, slots, deltas, events, k)
    ensures ok ==> c.mOriginalRequestIndices == ActionIndices(slots, |slots|)
  {
    hide RowShown, FirstFinished, Complete, Landed, LiveRow, PageTable.Valid, DenseRows, DenseLengths, DenseDeltas;
    hide ActionIndices, EventOk, HistoryOf, CompletedOf;
    view := View([], [], [], 0);
    ok := c.BeginRequest(slots, deltas);
    if !ok {
      return;
    }
    var e := 0;
    Begun(c, slots, deltas);
    assert events[..0] == [];
    while e < |events|
      invariant 0 <= e <= |events| && After(c, slots, deltas, events[..e]) && EventsOk(slots, c, events[..e])
    {
      assert events[..e + 1] == events[..e] + [events[e]] && events[..e + 1][..e] == events[..e];
      ok := Step(c, slots, deltas, events[..e], events[e]);
      if !ok {
        if EventsOk(slots, c, events) {
          EventsPrefix(slots, c, events, e + 1);
        }
        return;
      }
      e := e + 1;
    }
    assert events[..e] == events;
    EndIs(c, slots, deltas, events);
    ok, view := c.Materialize();
    if ok {
      forall k | 0 <= k < view.batchSize
        ensures RowShown(view, slots, deltas, events, k)
      {
        DenseShown(c, view, slots, deltas, events, k);
      }
    }
  }

  lemma Begun(c: ActionKvBatchCollector, slots: seq<bool>, deltas: seq<int>)
    requires c.Valid() && c.history == [] && !c.mMaterialized && c.mActionSlots == slots
    requires c.mRequestMropeDeltas == deltas
    requires forall o :: 0 <= o < |c.mPending| ==> !c.mPending[o]
    ensures After(c, slots, deltas, []) && EventsOk(slots, c, [])
  {
  }

  lemma {:induction false} NobodysFirst(xs: seq<Seen>, o: nat)
    requires forall i :: 0 <= i < |xs| ==> xs[i].original != o
    ensures FirstFinished(xs, o).None?
    decreases xs
  {
    if xs != [] {
      NobodysFirst(xs[1..], o);
    }
  }
}
