/** What holds in every run of the sharing protocol. */
module GroupWorkspaceRuns {
  import opened Wrappers
  import opened GroupWorkspace
  import opened GroupWorkspaceInvariant
  import opened GroupWorkspaceSafety

  lemma {:induction false} RunKeeps(len: Record -> nat, w: World, events: seq<Event>)
    requires Inv(w) && Run(len, w, events).Some?
    ensures Inv(Run(len, w, events).value)
    decreases |events|
  {
    if events != [] {
      StepKeeps(len, w, events[0]);
      RunKeeps(len, Next(len, w, events[0]).value, events[1..]);
    }
  }

  // ---------- The table only evolves ----------

  function NoticeRank(notice: Notice): nat {
    match notice
    case Silent => 0
    case Uncertain => 1
    case Sent => 2
  }

  /** A stored review keeps its text, and its receipts are never taken back. */
  ghost predicate RecordEvolves(a: Record, b: Record) {
    && SameCore(a, b)
    && NoticeRank(a.review.notification) <= NoticeRank(b.review.notification)
    && (a.review.notification != Silent ==> b.timestamp == a.timestamp)
    && (a.change.Some? ==> b.change == a.change)
  }

  ghost predicate SameReceipts(a: Record, b: Record) {
    a.review.notification == b.review.notification && a.timestamp == b.timestamp && a.change == b.change
  }

  ghost predicate RowEvolves(before: seq<Row>, after: seq<Row>, k: nat)
    requires k < |before| && k < |after|
  {
    && after[k].conversation == before[k].conversation
    && RecordEvolves(before[k].record, after[k].record)
    && (!IsNewest(before, before[k].conversation, k) ==> SameReceipts(before[k].record, after[k].record))
  }

  /** Rows are never removed, and only the newest row of a conversation can gain a receipt. */
  ghost predicate RowsEvolve(before: seq<Row>, after: seq<Row>) {
    && |before| <= |after|
    && forall k | 0 <= k < |before| :: RowEvolves(before, after, k)
  }

  lemma NewestOnlyMovesOn(before: seq<Row>, after: seq<Row>, k: nat)
    requires RowsEvolve(before, after) && k < |before| && !IsNewest(before, before[k].conversation, k)
    ensures !IsNewest(after, after[k].conversation, k)
  {
    var j :| k < j < |before| && before[j].conversation == before[k].conversation;
    assert RowEvolves(before, after, j) && RowEvolves(before, after, k);
  }

  lemma EvolvesTransitive(a: seq<Row>, b: seq<Row>, c: seq<Row>)
    requires RowsEvolve(a, b) && RowsEvolve(b, c)
    ensures RowsEvolve(a, c)
  {
    forall k | 0 <= k < |a| ensures RowEvolves(a, c, k) {
      assert RowEvolves(a, b, k) && RowEvolves(b, c, k);
      if !IsNewest(a, a[k].conversation, k) { NewestOnlyMovesOn(a, b, k); }
    }
  }

  lemma SavedRowEvolves(len: Record -> nat, w: World, t: nat, rows: seq<Row>)
    requires Inv(w) && t in w.ops && w.ops[t].Reviewing?
    requires Save(len, w.rows, w.ops[t].conversation, w.ops[t].record) == Some(rows)
    ensures RowsEvolve(w.rows, rows)
  {
    var op := w.ops[t];
    assert OpOk(w.out, w.rows, op);
    SaveFindsRow(len, w.rows, op.conversation, op.record, op.row);
    assert RecordOk(w.out, op.conversation, op.row, w.rows[op.row].record);
    if !IsNewest(w.rows, op.conversation, op.row) {
      assert !NeedsClientAlone(op);
    }
    UpdatedEvolves(w.rows, op.row, op.record);
  }

  lemma UpdatedEvolves(rows: seq<Row>, at: nat, record: Record)
    requires at < |rows| && RecordEvolves(rows[at].record, record)
    requires !IsNewest(rows, rows[at].conversation, at) ==> SameReceipts(rows[at].record, record)
    ensures RowsEvolve(rows, rows[at := rows[at].(record := record)])
  {
    var after := rows[at := rows[at].(record := record)];
    forall k | 0 <= k < |rows| ensures RowEvolves(rows, after, k) {
      if k != at { assert after[k] == rows[k]; }
    }
  }

  lemma InsertedRowEvolves(len: Record -> nat, w: World, t: nat, rows: seq<Row>)
    requires Inv(w) && t in w.ops && w.ops[t].Preparing? && w.ops[t].step.Saving?
    requires Save(len, w.rows, w.ops[t].conversation, w.ops[t].step.record) == Some(rows)
    ensures RowsEvolve(w.rows, rows)
  {
    assert OpOk(w.out, w.rows, w.ops[t]);
    var row := Row(w.ops[t].conversation, w.ops[t].step.record);
    assert rows == w.rows + [row];
    AppendedEvolves(w.rows, row);
  }

  lemma AppendedEvolves(rows: seq<Row>, row: Row)
    ensures RowsEvolve(rows, rows + [row])
  {
    forall k | 0 <= k < |rows| ensures RowEvolves(rows, rows + [row], k) {
      assert (rows + [row])[k] == rows[k];
    }
  }

  /** The record that an event writes to the table, if it writes one. */
  ghost function Written(w: World, e: Event): Option<(string, Record)> {
    if e.FinishPrepare? && e.t in w.ops && w.ops[e.t].Preparing? && w.ops[e.t].step.Saving? then
      Some((w.ops[e.t].conversation, w.ops[e.t].step.record))
    else if (e.FinishCheck? || e.ReservePublish? || e.FinishPublish? || e.SettleNotify? || e.ReserveNotify? || e.FinishNotify?)
            && e.t in w.ops && w.ops[e.t].Reviewing? then
      Some((w.ops[e.t].conversation, w.ops[e.t].record))
    else None
  }

  /** The table stays as it is, or it is the one that saving the written record gives. */
  ghost predicate WrittenBy(len: Record -> nat, w: World, e: Event, rows: seq<Row>) {
    || rows == w.rows
    || (Written(w, e).Some? && Save(len, w.rows, Written(w, e).value.0, Written(w, e).value.1) == Some(rows))
  }

  lemma OnlyWritesChangeRows(len: Record -> nat, w: World, e: Event)
    requires Next(len, w, e).Some?
    ensures WrittenBy(len, w, e, Next(len, w, e).value.rows)
  {
  }

  lemma WrittenRowsEvolve(len: Record -> nat, w: World, e: Event, rows: seq<Row>)
    requires Inv(w) && WrittenBy(len, w, e, rows)
    ensures RowsEvolve(w.rows, rows)
  {
    if rows != w.rows {
      if e.FinishPrepare? { InsertedRowEvolves(len, w, e.t, rows); } else { SavedRowEvolves(len, w, e.t, rows); }
    }
  }

  lemma StepEvolves(len: Record -> nat, w: World, e: Event)
    requires Inv(w) && Next(len, w, e).Some?
    ensures RowsEvolve(w.rows, Next(len, w, e).value.rows)
  {
    OnlyWritesChangeRows(len, w, e);
    WrittenRowsEvolve(len, w, e, Next(len, w, e).value.rows);
  }

  lemma {:induction false} RunEvolves(len: Record -> nat, w: World, events: seq<Event>)
    requires Inv(w) && Run(len, w, events).Some?
    ensures RowsEvolve(w.rows, Run(len, w, events).value.rows)
    decreases |events|
  {
    if events != [] {
      var next := Next(len, w, events[0]).value;
      StepKeeps(len, w, events[0]);
      StepEvolves(len, w, events[0]);
      RunEvolves(len, next, events[1..]);
      EvolvesTransitive(w.rows, next.rows, Run(len, next, events[1..]).value.rows);
    }
  }

  // ---------- PATCHes ----------

  /**
   Every accepted PATCH replaced exactly the text it was reviewed against with the reviewed
   extension of it, and no review is ever accepted twice.
   */
  lemma AcceptedPatchesInstallTheReview(len: Record -> nat, start: World, events: seq<Event>, w: World)
    requires Init(start) && Run(len, start, events) == Some(w)
    ensures forall i | 0 <= i < |w.out.accepted| ::
              var a := w.out.accepted[i];
              && a.row < |w.rows|
              && var review := w.rows[a.row].record.review;
                 && a.conversation == w.rows[a.row].conversation && a.revision == review.revision
                 && a.replaced == review.before && a.installed == review.after
                 && review.before <= review.after && review.before != review.after
                 && a.conversation in w.out.groups && 0 < a.revision < |w.out.groups[a.conversation]|
                 && w.out.groups[a.conversation][a.revision - 1].description == review.before
                 && w.out.groups[a.conversation][a.revision].description == review.after
    ensures forall i, j | 0 <= i < j < |w.out.accepted| ::
              w.rows[w.out.accepted[i].row].record.review.id != w.rows[w.out.accepted[j].row].record.review.id
  {
    RunKeeps(len, start, events);
    forall i | 0 <= i < |w.out.accepted|
      ensures AcceptanceOk(w.out, w.rows, w.out.accepted[i])
      ensures RecordOk(w.out, w.rows[w.out.accepted[i].row].conversation, w.out.accepted[i].row,
                       w.rows[w.out.accepted[i].row].record)
    {}
  }

  /** A PATCH leaves only after its review is stored as unconfirmed, and always with the prepared ciphertext. */
  lemma PatchesAreRecordedFirst(len: Record -> nat, start: World, events: seq<Event>, w: World, p: Patch)
    requires Init(start) && Run(len, start, events) == Some(w) && p in w.out.net
    ensures p.row < |w.rows|
    ensures var stored := w.rows[p.row].record;
            stored.review.state != Prepared && p.encrypted == stored.encrypted
            && p.encrypted.plain == stored.review.after && p.revision == stored.review.revision
  {
    RunKeeps(len, start, events);
    assert PatchOk(w.rows, p);
    assert RecordOk(w.out, w.rows[p.row].conversation, p.row, w.rows[p.row].record);
    assert InNet(w.out, p.row);
  }

  /** While a newer preview exists or is being made, no PATCH of an older review can be accepted. */
  lemma SupersededPatchIsRefused(len: Record -> nat, start: World, events: seq<Event>, w: World, p: Patch)
    requires Init(start) && Run(len, start, events) == Some(w)
    requires p in w.out.net && p.row < |w.rows| && Superseded(w.rows, w.ops, p.row)
    ensures Next(len, w, Deliver(p)) == Some(w)
  {
    RunKeeps(len, start, events);
    assert PatchOk(w.rows, p);
    assert InNet(w.out, p.row);
    assert Retired(w.out, w.rows, p.row);
    assert LogOk(w.out.groups[p.conversation]);
  }

  lemma OnlyDeliveriesAccept(len: Record -> nat, w: World, e: Event)
    requires Next(len, w, e).Some?
    ensures var accepted := Next(len, w, e).value.out.accepted;
            || accepted == w.out.accepted
            || (&& e.Deliver? && e.patch in w.out.net && Known(w.out, e.patch.conversation)
                && e.patch.revision == |w.out.groups[e.patch.conversation]|
                && |accepted| == |w.out.accepted| + 1 && accepted[..|w.out.accepted|] == w.out.accepted
                && accepted[|w.out.accepted|].row == e.patch.row)
  {
  }

  lemma StepAddsNoDeadAcceptance(len: Record -> nat, w: World, e: Event, row: nat)
    requires Inv(w) && Next(len, w, e).Some?
    requires row < |w.rows| && !IsNewest(w.rows, w.rows[row].conversation, row)
    ensures WasAccepted(Next(len, w, e).value.out, row) ==> WasAccepted(w.out, row)
  {
    OnlyDeliveriesAccept(len, w, e);
    var accepted := Next(len, w, e).value.out.accepted;
    if accepted != w.out.accepted {
      var p := e.patch;
      assert PatchOk(w.rows, p);
      assert InNet(w.out, p.row);
      assert Superseded(w.rows, w.ops, row);
      assert Retired(w.out, w.rows, row);
      assert p.row != row;
      forall i | 0 <= i < |accepted| && accepted[i].row == row ensures WasAccepted(w.out, row) {
        assert w.out.accepted[i].row == row;
      }
    }
  }

  /** Once a newer review is stored, that stays so for the rest of the run. */
  lemma {:induction false} SupersededForever(len: Record -> nat, w: World, events: seq<Event>, row: nat)
    requires Inv(w) && Run(len, w, events).Some?
    requires row < |w.rows| && !IsNewest(w.rows, w.rows[row].conversation, row)
    ensures WasAccepted(Run(len, w, events).value.out, row) ==> WasAccepted(w.out, row)
    decreases |events|
  {
    if events != [] {
      var next := Next(len, w, events[0]).value;
      StepKeeps(len, w, events[0]);
      StepEvolves(len, w, events[0]);
      NewestOnlyMovesOn(w.rows, next.rows, row);
      assert RowEvolves(w.rows, next.rows, row);
      StepAddsNoDeadAcceptance(len, w, events[0], row);
      SupersededForever(len, next, events[1..], row);
    }
  }

  // ---------- Notifications ----------

  /**
   The group hears of a review at most once; the call that told it had itself seen the server
   hold the reviewed text at or past the reviewed revision; a signed change is attached only to
   the very revision it produced; and a review is called sent only after an acknowledged send.
   */
  lemma NotificationsAreEarned(len: Record -> nat, start: World, events: seq<Event>, w: World)
    requires Init(start) && Run(len, start, events) == Some(w)
    ensures forall i | 0 <= i < |w.out.sends| ::
              var n := w.out.sends[i];
              && n.row < |w.rows|
              && var stored := w.rows[n.row].record;
                 && SawPublished(w.out, n.conversation, stored.review, n.seen)
                 && stored.timestamp == Some(n.timestamp) && stored.review.notification != Silent
                 && (n.change.Some? ==> n.change.value == n.seen.version == stored.review.revision)
    ensures forall i, j | 0 <= i < j < |w.out.sends| ::
              w.rows[w.out.sends[i].row].record.review.id != w.rows[w.out.sends[j].row].record.review.id
    ensures forall k | 0 <= k < |w.rows| && w.rows[k].record.review.notification == GroupWorkspace.Sent ::
              k in w.out.acknowledged && WasSent(w.out, k)
  {
    RunKeeps(len, start, events);
    forall i | 0 <= i < |w.out.sends|
      ensures NotificationOk(w.out, w.rows, w.out.sends[i])
      ensures w.rows[w.out.sends[i].row].record.review.notification != Silent
    {
      var n := w.out.sends[i];
      assert NotificationOk(w.out, w.rows, n);
      assert WasSent(w.out, n.row);
      assert RecordOk(w.out, w.rows[n.row].conversation, n.row, w.rows[n.row].record);
    }
    forall k | 0 <= k < |w.rows| && w.rows[k].record.review.notification == GroupWorkspace.Sent
      ensures k in w.out.acknowledged
    {
      assert RecordOk(w.out, w.rows[k].conversation, k, w.rows[k].record);
    }
  }

  /** Nothing that happens later erases a receipt, and a superseded review's receipts never change again. */
  lemma ReceiptsSurvive(len: Record -> nat, start: World, events: seq<Event>, w: World, more: seq<Event>, v: World)
    requires Init(start) && Run(len, start, events) == Some(w) && Run(len, w, more) == Some(v)
    ensures RowsEvolve(w.rows, v.rows)
  {
    RunKeeps(len, start, events);
    RunEvolves(len, w, more);
  }

  // ---------- Storage ----------

  ghost predicate TableFits(len: Record -> nat, rows: seq<Row>) {
    && |rows| <= MAX_ROWS && TableBytes(len, rows) <= MAX_TABLE_BYTES
    && (forall k | 0 <= k < |rows| :: len(rows[k].record) <= MAX_BODY_BYTES)
    && (forall j, k | 0 <= j < k < |rows| :: rows[j].record.command != rows[k].record.command)
  }

  lemma {:induction false} TableBytesUpdate(len: Record -> nat, rows: seq<Row>, k: nat, row: Row)
    requires k < |rows|
    ensures TableBytes(len, rows[k := row]) == TableBytes(len, rows) - len(rows[k].record) + len(row.record)
  {
    var last := |rows| - 1;
    if k == last {
      assert rows[k := row][..last] == rows[..last];
    } else {
      assert rows[k := row][..last] == rows[..last][k := row];
      TableBytesUpdate(len, rows[..last], k, row);
    }
  }

  lemma SaveFits(len: Record -> nat, rows: seq<Row>, conversation: string, record: Record, saved: seq<Row>)
    requires TableFits(len, rows) && Save(len, rows, conversation, record) == Some(saved)
    requires var at := IndexOf(rows, record.review.id); at.Some? ==> rows[at.value].record.command == record.command
    ensures TableFits(len, saved)
  {
    var at := IndexOf(rows, record.review.id);
    if at.Some? {
      TableBytesUpdate(len, rows, at.value, saved[at.value]);
    } else {
      assert saved[..|rows|] == rows;
    }
  }

  lemma WrittenRowsFit(len: Record -> nat, w: World, e: Event, rows: seq<Row>)
    requires Inv(w) && TableFits(len, w.rows) && WrittenBy(len, w, e, rows)
    ensures TableFits(len, rows)
  {
    if rows != w.rows {
      assert OpOk(w.out, w.rows, w.ops[e.t]);
      SaveFits(len, w.rows, Written(w, e).value.0, Written(w, e).value.1, rows);
    }
  }

  lemma StepFits(len: Record -> nat, w: World, e: Event)
    requires Inv(w) && TableFits(len, w.rows) && Next(len, w, e).Some?
    ensures TableFits(len, Next(len, w, e).value.rows)
  {
    OnlyWritesChangeRows(len, w, e);
    WrittenRowsFit(len, w, e, Next(len, w, e).value.rows);
  }

  /** The table of reviews never outgrows its limits, and no request identity is stored twice. */
  lemma {:induction false} TableStaysBounded(len: Record -> nat, w: World, events: seq<Event>)
    requires Inv(w) && TableFits(len, w.rows) && Run(len, w, events).Some?
    ensures TableFits(len, Run(len, w, events).value.rows)
    decreases |events|
  {
    if events != [] {
      StepKeeps(len, w, events[0]);
      StepFits(len, w, events[0]);
      TableStaysBounded(len, Next(len, w, events[0]).value, events[1..]);
    }
  }
}
