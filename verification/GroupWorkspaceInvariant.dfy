/**
 What every step of the sharing protocol keeps, in pieces that each look at no more of the world
 than they need, and the lemmas that carry each piece over the changes a step can make to the
 table, to the calls in progress and to everything outside of the worker.
*/
module GroupWorkspaceInvariant {
  import opened Wrappers
  import opened GroupWorkspace

  ghost predicate LogsOk(out: Outside) {
    forall c | c in out.groups :: LogOk(out.groups[c])
  }

  ghost predicate InNet(out: Outside, row: nat) {
    exists p | p in out.net :: p.row == row
  }

  ghost predicate WasSent(out: Outside, row: nat) {
    exists i | 0 <= i < |out.sends| :: out.sends[i].row == row
  }

  /** The server has moved to the review's revision or past it: its PATCH is refused from now on. */
  ghost predicate Passed(out: Outside, conversation: string, review: Review) {
    conversation in out.groups && review.revision < |out.groups[conversation]|
  }

  /** The text under review is the text of the version it extends. */
  ghost predicate Anchored(out: Outside, conversation: string, record: Record) {
    var review := record.review;
    && conversation in out.groups
    && review.before <= review.after
    && record.encrypted.plain == review.after
    && if review.before == review.after then Passed(out, conversation, review)
       else
         && 0 < review.revision <= |out.groups[conversation]|
         && out.groups[conversation][review.revision - 1].description == review.before
  }

  /** What the recorded state says about PATCHes that may be on their way. */
  ghost predicate StateOk(out: Outside, conversation: string, row: nat, review: Review) {
    match review.state
    case Prepared => review.before != review.after && !InNet(out, row)
    case Unconfirmed => review.before != review.after
    case _ => Passed(out, conversation, review)
  }

  ghost predicate NoticeOk(out: Outside, row: nat, record: Record) {
    && (record.review.notification == Silent ==> !WasSent(out, row))
    && (record.review.notification == GroupWorkspace.Sent ==> row in out.acknowledged)
    && (record.change.Some? ==> record.change.value == record.review.revision && WasAccepted(out, row))
  }

  ghost predicate RecordOk(out: Outside, conversation: string, row: nat, record: Record) {
    && Anchored(out, conversation, record)
    && StateOk(out, conversation, row, record.review)
    && NoticeOk(out, row, record)
  }

  /** Everything about a record that never changes once it is stored. */
  ghost predicate SameCore(a: Record, b: Record) {
    && a.command == b.command && a.encrypted == b.encrypted
    && a.review.id == b.review.id && a.review.workspace == b.review.workspace
    && a.review.before == b.review.before && a.review.after == b.review.after
    && a.review.revision == b.review.revision
  }

  /** `a` carries every receipt that `b` holds. */
  ghost predicate SameReceipt(a: Record, b: Record) {
    && a.review.notification == b.review.notification && a.timestamp == b.timestamp
    && (b.change.Some? ==> a.change == b.change)
  }

  ghost predicate IsNewest(rows: seq<Row>, conversation: string, row: nat) {
    && row < |rows| && rows[row].conversation == conversation
    && forall j | row < j < |rows| :: rows[j].conversation != conversation
  }

  ghost predicate RowsOk(out: Outside, rows: seq<Row>) {
    forall k | 0 <= k < |rows| :: RecordOk(out, rows[k].conversation, k, rows[k].record)
  }

  ghost predicate IdsDistinct(rows: seq<Row>) {
    forall j, k | 0 <= j < k < |rows| :: rows[j].record.review.id != rows[k].record.review.id
  }

  /** No PATCH of this review is, or ever will be, acceptable. */
  ghost predicate Retired(out: Outside, rows: seq<Row>, row: nat)
    requires row < |rows|
  {
    !InNet(out, row) || Passed(out, rows[row].conversation, rows[row].record.review)
  }

  ghost predicate PreviewIn(ops: map<nat, Op>, conversation: string) {
    exists t | t in ops :: ops[t].Preparing? && ops[t].conversation == conversation
  }

  /** A review is superseded by a newer row, or about to be by a preview in progress. */
  ghost predicate Superseded(rows: seq<Row>, ops: map<nat, Op>, row: nat)
    requires row < |rows|
  {
    !IsNewest(rows, rows[row].conversation, row) || PreviewIn(ops, rows[row].conversation)
  }

  ghost predicate RetirementOk(out: Outside, rows: seq<Row>, ops: map<nat, Op>) {
    forall k | 0 <= k < |rows| && Superseded(rows, ops, k) :: Retired(out, rows, k)
  }

  ghost predicate SawPublished(out: Outside, conversation: string, review: Review, seen: Group) {
    && conversation in out.groups && seen.version < |out.groups[conversation]|
    && out.groups[conversation][seen.version] == seen
    && seen.version >= review.revision && seen.description == review.after
  }

  ghost predicate StageOk(out: Outside, op: Op, stored: Record)
    requires op.Reviewing?
  {
    var record := op.record;
    match op.stage
    case CheckFetch => SameReceipt(record, stored) && record.change == stored.change
    case CheckSave => SameReceipt(record, stored) && record.change == stored.change
    case PublishReserve(seen) => SameReceipt(record, stored) && record.review.state == Unconfirmed
    case PublishSend(seen) => record == stored && record.review.state == Unconfirmed
    case PublishWait(seen) => record == stored && record.review.state == Unconfirmed
    case NotifyFetch => record == stored && record.review.notification == Silent && record.review.state == Published
    case NotifyReserve(seen) =>
      && SawPublished(out, op.conversation, record.review, seen)
      && record.timestamp.Some? && record.review.notification == Uncertain && record.change == stored.change
      && stored.review.notification == Silent
    case NotifySend(seen) =>
      && SawPublished(out, op.conversation, record.review, seen)
      && record.timestamp.Some? && record.review.notification == Uncertain && record == stored && !WasSent(out, op.row)
    case NotifyWait => record.review.notification == Uncertain && record == stored && WasSent(out, op.row)
    case NotifyFinish =>
      && record.review.notification == GroupWorkspace.Sent && record.timestamp == stored.timestamp
      && record.change == stored.change && stored.review.notification == Uncertain
    case _ => SameReceipt(record, stored)
  }

  ghost predicate ReviewingOk(out: Outside, rows: seq<Row>, op: Op)
    requires op.Reviewing?
  {
    && op.row < |rows|
    && rows[op.row].conversation == op.conversation
    && SameCore(op.record, rows[op.row].record)
    && RecordOk(out, op.conversation, op.row, op.record)
    && (NeedsClientAlone(op) ==> IsNewest(rows, op.conversation, op.row))
    && StageOk(out, op, rows[op.row].record)
  }

  ghost predicate NewRecordOk(out: Outside, conversation: string, record: Record) {
    && Anchored(out, conversation, record)
    && record.review.state == (if record.review.before == record.review.after then Published else Prepared)
    && record.review.notification == Silent && record.change.None? && record.timestamp.None?
  }

  ghost predicate PreparingOk(out: Outside, rows: seq<Row>, op: Op)
    requires op.Preparing?
  {
    && Known(out, op.conversation)
    && (op.step.Saving? ==>
          && NewRecordOk(out, op.conversation, op.step.record)
          && IndexOf(rows, op.step.record.review.id).None?)
  }

  ghost predicate OpOk(out: Outside, rows: seq<Row>, op: Op) {
    if op.Preparing? then PreparingOk(out, rows, op) else ReviewingOk(out, rows, op)
  }

  ghost predicate OpsOk(out: Outside, rows: seq<Row>, ops: map<nat, Op>) {
    forall t | t in ops :: OpOk(out, rows, ops[t])
  }

  ghost predicate ClientExclusive(ops: map<nat, Op>) {
    forall t, u | t in ops && u in ops && NeedsClientAlone(ops[t]) :: t == u
  }

  ghost predicate NewIdsDistinct(ops: map<nat, Op>) {
    forall t, u | t in ops && u in ops && t != u && ops[t].Preparing? && ops[u].Preparing?
                  && ops[t].step.Saving? && ops[u].step.Saving? ::
      ops[t].step.record.review.id != ops[u].step.record.review.id
  }

  /** A PATCH on the network carries its review's own revision and ciphertext. */
  ghost predicate PatchOk(rows: seq<Row>, p: Patch) {
    && p.row < |rows| && rows[p.row].conversation == p.conversation
    && p.revision == rows[p.row].record.review.revision
    && p.encrypted == rows[p.row].record.encrypted
    && rows[p.row].record.review.before != rows[p.row].record.review.after
  }

  ghost predicate AcceptanceOk(out: Outside, rows: seq<Row>, a: Acceptance) {
    && a.row < |rows| && rows[a.row].conversation == a.conversation
    && var review := rows[a.row].record.review;
       && a.revision == review.revision && a.replaced == review.before && a.installed == review.after
       && Passed(out, a.conversation, review)
       && 0 < a.revision && review.before != review.after
       && out.groups[a.conversation][a.revision].description == review.after
       && out.groups[a.conversation][a.revision - 1].description == review.before
  }

  ghost predicate NotificationOk(out: Outside, rows: seq<Row>, n: Notification) {
    && n.row < |rows| && rows[n.row].conversation == n.conversation
    && var stored := rows[n.row].record;
       && SawPublished(out, n.conversation, stored.review, n.seen)
       && stored.timestamp == Some(n.timestamp)
       && (n.change.Some? ==> n.seen.version == stored.review.revision == n.change.value && WasAccepted(out, n.row))
  }

  ghost predicate PatchesOk(out: Outside, rows: seq<Row>) {
    forall p | p in out.net :: PatchOk(rows, p)
  }

  ghost predicate AcceptancesOk(out: Outside, rows: seq<Row>) {
    && (forall i | 0 <= i < |out.accepted| :: AcceptanceOk(out, rows, out.accepted[i]))
    && (forall i, j | 0 <= i < j < |out.accepted| :: out.accepted[i].row != out.accepted[j].row)
  }

  ghost predicate SendsOk(out: Outside, rows: seq<Row>) {
    && (forall i | 0 <= i < |out.sends| :: NotificationOk(out, rows, out.sends[i]))
    && (forall i, j | 0 <= i < j < |out.sends| :: out.sends[i].row != out.sends[j].row)
    && (forall row | row in out.acknowledged :: WasSent(out, row))
  }

  ghost predicate HistoryOk(out: Outside, rows: seq<Row>) {
    PatchesOk(out, rows) && AcceptancesOk(out, rows) && SendsOk(out, rows)
  }

  ghost predicate Inv(w: World) {
    && LogsOk(w.out)
    && RowsOk(w.out, w.rows) && IdsDistinct(w.rows)
    && RetirementOk(w.out, w.rows, w.ops)
    && OpsOk(w.out, w.rows, w.ops) && ClientExclusive(w.ops) && NewIdsDistinct(w.ops)
    && HistoryOk(w.out, w.rows)
  }

  // ---------- Small changes to the world ----------

  lemma EndKeeps(w: World, t: nat)
    requires Inv(w)
    ensures Inv(End(w, t))
  {
    var ops := End(w, t).ops;
    forall k | 0 <= k < |w.rows| && Superseded(w.rows, ops, k) ensures Retired(w.out, w.rows, k) {
      assert Superseded(w.rows, w.ops, k);
    }
  }

  lemma PutReviewingKeeps(w: World, t: nat, op: Op)
    requires Inv(w) && op.Reviewing? && ReviewingOk(w.out, w.rows, op)
    requires forall u | u in w.ops && u != t :: !NeedsClientAlone(op) && !NeedsClientAlone(w.ops[u])
    ensures Inv(Put(w, t, op))
  {
    var ops := Put(w, t, op).ops;
    forall k | 0 <= k < |w.rows| && Superseded(w.rows, ops, k) ensures Retired(w.out, w.rows, k) {
      assert Superseded(w.rows, w.ops, k);
    }
    assert OpsOk(w.out, w.rows, ops);
  }

  lemma PutPreparingKeeps(w: World, t: nat, op: Op)
    requires Inv(w) && op.Preparing? && PreparingOk(w.out, w.rows, op)
    requires forall u | u in w.ops && u != t :: !NeedsClientAlone(w.ops[u])
    requires op.step.Saving? ==> FreshId(w, op.step.record.review.id)
    requires forall k | 0 <= k < |w.rows| && w.rows[k].conversation == op.conversation :: Retired(w.out, w.rows, k)
    ensures Inv(Put(w, t, op))
  {
    var ops := Put(w, t, op).ops;
    forall k | 0 <= k < |w.rows| && Superseded(w.rows, ops, k) ensures Retired(w.out, w.rows, k) {
      assert Superseded(w.rows, w.ops, k) || w.rows[k].conversation == op.conversation;
    }
    assert OpsOk(w.out, w.rows, ops);
  }

  /** What happened outside refers to stored rows only through what never changes about them. */
  lemma HistoryFollowsRows(out: Outside, rows: seq<Row>, next: seq<Row>)
    requires HistoryOk(out, rows) && |rows| <= |next|
    requires forall k | 0 <= k < |rows| ::
               && next[k].conversation == rows[k].conversation && SameCore(next[k].record, rows[k].record)
               && (WasSent(out, k) ==> next[k].record.timestamp == rows[k].record.timestamp)
    ensures HistoryOk(out, next)
  {
    forall p | p in out.net ensures PatchOk(next, p) {
      assert PatchOk(rows, p);
    }
    forall i | 0 <= i < |out.accepted| ensures AcceptanceOk(out, next, out.accepted[i]) {
      assert AcceptanceOk(out, rows, out.accepted[i]);
    }
    forall i | 0 <= i < |out.sends| ensures NotificationOk(out, next, out.sends[i]) {
      assert NotificationOk(out, rows, out.sends[i]);
      assert WasSent(out, out.sends[i].row);
    }
  }

  lemma UpdateKeepsRetirement(out: Outside, rows: seq<Row>, ops: map<nat, Op>, k: nat, record: Record)
    requires RetirementOk(out, rows, ops) && k < |rows| && SameCore(record, rows[k].record)
    ensures RetirementOk(out, rows[k := rows[k].(record := record)], ops)
  {
    var next := rows[k := rows[k].(record := record)];
    forall j | 0 <= j < |next| && Superseded(next, ops, j) ensures Retired(out, next, j) {
      if IsNewest(rows, rows[j].conversation, j) { assert IsNewest(next, next[j].conversation, j); }
      assert Superseded(rows, ops, j);
    }
  }

  lemma UpdateKeepsOp(out: Outside, rows: seq<Row>, op: Op, k: nat, record: Record)
    requires OpOk(out, rows, op) && k < |rows| && SameCore(record, rows[k].record)
    requires op.Reviewing? && op.row == k ==> StageOk(out, op, record)
    ensures OpOk(out, rows[k := rows[k].(record := record)], op)
  {
  }

  lemma UpdateRowKeeps(w: World, k: nat, record: Record)
    requires Inv(w) && k < |w.rows|
    requires RecordOk(w.out, w.rows[k].conversation, k, record) && SameCore(record, w.rows[k].record)
    requires WasSent(w.out, k) ==> record.timestamp == w.rows[k].record.timestamp
    requires forall t | t in w.ops && w.ops[t].Reviewing? && w.ops[t].row == k :: StageOk(w.out, w.ops[t], record)
    ensures Inv(w.(rows := w.rows[k := w.rows[k].(record := record)]))
  {
    var rows := w.rows[k := w.rows[k].(record := record)];
    UpdateKeepsRetirement(w.out, w.rows, w.ops, k, record);
    forall t | t in w.ops ensures OpOk(w.out, rows, w.ops[t]) {
      UpdateKeepsOp(w.out, w.rows, w.ops[t], k, record);
    }
    HistoryFollowsRows(w.out, w.rows, rows);
  }

  lemma NextRowIsUnknownOutside(out: Outside, rows: seq<Row>)
    requires HistoryOk(out, rows)
    ensures !InNet(out, |rows|) && !WasSent(out, |rows|)
  {
    forall p | p in out.net ensures p.row != |rows| { assert PatchOk(rows, p); }
    forall i | 0 <= i < |out.sends| ensures out.sends[i].row != |rows| {
      assert NotificationOk(out, rows, out.sends[i]);
    }
  }

  lemma InsertKeepsRetirement(out: Outside, rows: seq<Row>, ops: map<nat, Op>, row: Row)
    requires RetirementOk(out, rows, ops) && !InNet(out, |rows|)
    requires forall k | 0 <= k < |rows| && rows[k].conversation == row.conversation :: Retired(out, rows, k)
    ensures RetirementOk(out, rows + [row], ops)
  {
    var next := rows + [row];
    forall j | 0 <= j < |next| && Superseded(next, ops, j) ensures Retired(out, next, j) {
      if j < |rows| && rows[j].conversation != row.conversation {
        if IsNewest(rows, rows[j].conversation, j) { assert IsNewest(next, next[j].conversation, j); }
        assert Superseded(rows, ops, j);
      }
      assert j < |rows| ==> Retired(out, rows, j);
    }
  }

  lemma InsertKeepsOp(out: Outside, rows: seq<Row>, op: Op, row: Row)
    requires OpOk(out, rows, op) && !NeedsClientAlone(op)
    requires op.Preparing? && op.step.Saving? ==> op.step.record.review.id != row.record.review.id
    ensures OpOk(out, rows + [row], op)
  {
  }

  lemma InsertRowKeeps(w: World, row: Row)
    requires Inv(w) && NewRecordOk(w.out, row.conversation, row.record)
    requires IndexOf(w.rows, row.record.review.id).None?
    requires SharedClientFree(w)
    requires forall k | 0 <= k < |w.rows| && w.rows[k].conversation == row.conversation :: Retired(w.out, w.rows, k)
    requires forall t | t in w.ops && w.ops[t].Preparing? && w.ops[t].step.Saving? ::
               w.ops[t].step.record.review.id != row.record.review.id
    ensures Inv(w.(rows := w.rows + [row]))
  {
    var rows := w.rows + [row];
    NextRowIsUnknownOutside(w.out, w.rows);
    InsertKeepsRetirement(w.out, w.rows, w.ops, row);
    forall t | t in w.ops ensures OpOk(w.out, rows, w.ops[t]) {
      InsertKeepsOp(w.out, w.rows, w.ops[t], row);
    }
    HistoryFollowsRows(w.out, w.rows, rows);
  }

  // ---------- Changes outside the worker ----------

  /** The outside only accumulates: nothing the table relies on is taken back. */
  ghost predicate Extends(out: Outside, next: Outside) {
    && (forall c | c in out.groups :: c in next.groups && out.groups[c] <= next.groups[c])
    && (forall row: nat | WasAccepted(out, row) :: WasAccepted(next, row))
    && out.acknowledged <= next.acknowledged
  }

  lemma RecordSurvives(out: Outside, next: Outside, conversation: string, row: nat, record: Record)
    requires RecordOk(out, conversation, row, record) && Extends(out, next)
    requires InNet(next, row) ==> InNet(out, row) || record.review.state != Prepared
    requires WasSent(next, row) ==> WasSent(out, row) || record.review.notification != Silent
    ensures RecordOk(next, conversation, row, record)
  {
  }

  lemma SawSurvives(out: Outside, next: Outside, conversation: string, review: Review, seen: Group)
    requires SawPublished(out, conversation, review, seen) && Extends(out, next)
    ensures SawPublished(next, conversation, review, seen)
  {
  }

  lemma SendsSurvive(out: Outside, next: Outside, rows: seq<Row>)
    requires SendsOk(out, rows) && Extends(out, next) && next.sends == out.sends
    requires forall row | row in next.acknowledged :: WasSent(out, row)
    ensures SendsOk(next, rows)
  {
    assert forall row: nat :: WasSent(next, row) == WasSent(out, row);
    forall i | 0 <= i < |next.sends| ensures NotificationOk(next, rows, next.sends[i]) {
      var n := next.sends[i];
      assert NotificationOk(out, rows, n);
      SawSurvives(out, next, n.conversation, rows[n.row].record.review, n.seen);
    }
  }

  lemma OpSurvives(out: Outside, next: Outside, rows: seq<Row>, op: Op)
    requires OpOk(out, rows, op) && Extends(out, next)
    requires next.net == out.net && next.sends == out.sends
    ensures OpOk(next, rows, op)
  {
    if op.Reviewing? {
      assert InNet(next, op.row) == InNet(out, op.row);
      assert WasSent(next, op.row) == WasSent(out, op.row);
      RecordSurvives(out, next, op.conversation, op.row, op.record);
      match op.stage
      case NotifyReserve(seen) => SawSurvives(out, next, op.conversation, op.record.review, seen);
      case NotifySend(seen) => SawSurvives(out, next, op.conversation, op.record.review, seen);
      case _ =>
    }
  }

  /** Rows, operations and history survive a change outside that adds no PATCH and no send. */
  lemma OutsideChangeKeeps(w: World, next: Outside)
    requires Inv(w) && Extends(w.out, next) && LogsOk(next)
    requires next.net == w.out.net && next.sends == w.out.sends && next.acknowledged == w.out.acknowledged
    requires AcceptancesOk(next, w.rows)
    ensures Inv(w.(out := next))
  {
    var out := w.out;
    forall k | 0 <= k < |w.rows| ensures RecordOk(next, w.rows[k].conversation, k, w.rows[k].record) {
      assert InNet(next, k) == InNet(out, k);
      assert WasSent(next, k) == WasSent(out, k);
      RecordSurvives(out, next, w.rows[k].conversation, k, w.rows[k].record);
    }
    forall k | 0 <= k < |w.rows| && Superseded(w.rows, w.ops, k) ensures Retired(next, w.rows, k) {
      assert Retired(out, w.rows, k);
      assert InNet(next, k) == InNet(out, k);
    }
    forall t | t in w.ops ensures OpOk(next, w.rows, w.ops[t]) {
      OpSurvives(out, next, w.rows, w.ops[t]);
    }
    SendsSurvive(out, next, w.rows);
  }

  lemma AcceptancesSurvive(out: Outside, next: Outside, rows: seq<Row>)
    requires AcceptancesOk(out, rows) && Extends(out, next) && next.accepted == out.accepted
    ensures AcceptancesOk(next, rows)
  {
    forall i | 0 <= i < |next.accepted| ensures AcceptanceOk(next, rows, next.accepted[i]) {
      assert AcceptanceOk(out, rows, out.accepted[i]);
    }
  }
}
