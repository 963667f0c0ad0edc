/**
 Every step keeps the invariant of the sharing protocol: one lemma for each kind of step, gathered
 into one statement about all of them. The module on runs draws the conclusions for whole runs.
*/
module GroupWorkspaceSafety {
  import opened Wrappers
  import opened Proposal
  import opened GroupWorkspace
  import opened GroupWorkspaceInvariant

  // ---------- Saving ----------

  lemma SaveFindsRow(len: Record -> nat, rows: seq<Row>, conversation: string, record: Record, k: nat)
    requires IdsDistinct(rows) && k < |rows| && rows[k].record.review.id == record.review.id
    ensures var saved := Save(len, rows, conversation, record);
            saved.Some? ==> saved.value == rows[k := rows[k].(record := record)]
  {
    var at := IndexOf(rows, record.review.id);
    assert at.Some?;
    assert at.value == k;
  }

  /** Writing back the record of a finished or advancing call, with that call set aside. */
  lemma WriteBackKeeps(w: World, t: nat)
    requires Inv(w) && t in w.ops && w.ops[t].Reviewing?
    requires w.ops[t].stage in {CheckSave, NotifySettle, NotifyFinish} || w.ops[t].stage.PublishFinish?
             || w.ops[t].stage.PublishReserve? || w.ops[t].stage.NotifyReserve?
    ensures var op := w.ops[t];
            op.row < |w.rows| && Inv(End(w, t).(rows := w.rows[op.row := w.rows[op.row].(record := op.record)]))
  {
    var op := w.ops[t];
    assert OpOk(w.out, w.rows, op);
    EndKeeps(w, t);
    var left := End(w, t);
    forall u | u in left.ops && left.ops[u].Reviewing? && left.ops[u].row == op.row
      ensures StageOk(w.out, left.ops[u], op.record)
    {
      assert OpOk(w.out, w.rows, w.ops[u]);
    }
    assert RecordOk(w.out, op.conversation, op.row, w.rows[op.row].record);
    UpdateRowKeeps(left, op.row, op.record);
  }

  lemma FinishReviewKeeps(len: Record -> nat, w: World, t: nat)
    requires Inv(w) && t in w.ops && w.ops[t].Reviewing?
    requires w.ops[t].stage in {CheckSave, NotifySettle, NotifyFinish} || w.ops[t].stage.PublishFinish?
    ensures Inv(SaveAndEnd(len, w, t, w.ops[t].conversation, w.ops[t].record))
  {
    var op := w.ops[t];
    assert OpOk(w.out, w.rows, op);
    EndKeeps(w, t);
    WriteBackKeeps(w, t);
    SaveFindsRow(len, w.rows, op.conversation, op.record, op.row);
  }

  lemma ReservedIsReady(w: World, t: nat, stage: Stage)
    requires Inv(w) && t in w.ops && w.ops[t].Reviewing?
    requires || (w.ops[t].stage.PublishReserve? && stage == PublishSend(w.ops[t].stage.seen))
             || (w.ops[t].stage.NotifyReserve? && stage == NotifySend(w.ops[t].stage.seen))
    ensures var op := w.ops[t];
            op.row < |w.rows| && var rows := w.rows[op.row := w.rows[op.row].(record := op.record)];
            ReviewingOk(w.out, rows, op.(stage := stage)) && End(w, t).ops == map[]
  {
    var op := w.ops[t];
    assert OpOk(w.out, w.rows, op);
    assert RecordOk(w.out, op.conversation, op.row, w.rows[op.row].record);
  }

  lemma ReserveKeeps(len: Record -> nat, w: World, t: nat, stage: Stage)
    requires Inv(w) && t in w.ops && w.ops[t].Reviewing?
    requires || (w.ops[t].stage.PublishReserve? && stage == PublishSend(w.ops[t].stage.seen))
             || (w.ops[t].stage.NotifyReserve? && stage == NotifySend(w.ops[t].stage.seen))
    ensures Inv(SaveAndGo(len, w, t, stage))
  {
    var op := w.ops[t];
    EndKeeps(w, t);
    ReservedIsReady(w, t, stage);
    SaveFindsRow(len, w.rows, op.conversation, op.record, op.row);
    if Save(len, w.rows, op.conversation, op.record).Some? {
      WriteBackKeeps(w, t);
      var saved := End(w, t).(rows := w.rows[op.row := w.rows[op.row].(record := op.record)]);
      PutReviewingKeeps(saved, t, op.(stage := stage));
      PutAfterEnd(w, t, saved.rows, op.(stage := stage));
    }
  }

  lemma PutAfterEnd(w: World, t: nat, rows: seq<Row>, op: Op)
    requires t in w.ops
    ensures Put(End(w, t).(rows := rows), t, op) == Put(w.(rows := rows), t, op)
  {
    assert Put(End(w, t).(rows := rows), t, op).ops == Put(w.(rows := rows), t, op).ops;
  }

  // ---------- Preview ----------

  lemma StartPrepareKeeps(len: Record -> nat, w: World, t: nat, conversation: string, command: string, id: WorkspaceId)
    requires Inv(w) && Next(len, w, StartPrepare(t, conversation, command, id)).Some?
    ensures Inv(Next(len, w, StartPrepare(t, conversation, command, id)).value)
  {
    var next := Next(len, w, StartPrepare(t, conversation, command, id)).value;
    if next != w {
      var newest := Newest(w.rows, conversation);
      forall k | 0 <= k < |w.rows| && w.rows[k].conversation == conversation ensures Retired(w.out, w.rows, k) {
        if newest == Some(k) {
          assert RecordOk(w.out, conversation, k, w.rows[k].record);
        } else {
          assert !IsNewest(w.rows, conversation, k);
          assert Superseded(w.rows, w.ops, k);
        }
      }
      PutPreparingKeeps(w, t, Preparing(conversation, command, Choosing(id)));
    }
  }

  lemma PreviewStepKeeps(w: World, t: nat, step: PrepareStep)
    requires Inv(w) && t in w.ops && w.ops[t].Preparing?
    requires PreparingOk(w.out, w.rows, w.ops[t].(step := step))
    requires step.Saving? ==> FreshId(w, step.record.review.id)
    ensures Inv(Put(w, t, w.ops[t].(step := step)))
  {
    var op := w.ops[t];
    forall k | 0 <= k < |w.rows| && w.rows[k].conversation == op.conversation ensures Retired(w.out, w.rows, k) {
      assert PreviewIn(w.ops, op.conversation);
      assert Superseded(w.rows, w.ops, k);
    }
    PutPreparingKeeps(w, t, op.(step := step));
  }

  lemma PreparedRecordIsAnchored(out: Outside, conversation: string, command: string, workspace: Workspace,
                                 id: string, nonce: nat)
    requires LogsOk(out) && Known(out, conversation)
    ensures var record := PrepareRecord(command, workspace, Current(out, conversation), id, nonce);
            record.Some? ==> NewRecordOk(out, conversation, record.value) && record.value.review.id == id
  {
    var log := out.groups[conversation];
    assert LogOk(log);
    assert Current(out, conversation).version == |log| - 1;
  }

  lemma FinishPrepareKeeps(len: Record -> nat, w: World, t: nat)
    requires Inv(w) && t in w.ops && w.ops[t].Preparing? && w.ops[t].step.Saving?
    ensures Inv(SaveAndEnd(len, w, t, w.ops[t].conversation, w.ops[t].step.record))
  {
    var op := w.ops[t];
    var record := op.step.record;
    assert OpOk(w.out, w.rows, op);
    EndKeeps(w, t);
    if Save(len, w.rows, op.conversation, record).Some? {
      var left := End(w, t);
      forall k | 0 <= k < |w.rows| && w.rows[k].conversation == op.conversation ensures Retired(w.out, w.rows, k) {
        assert PreviewIn(w.ops, op.conversation);
        assert Superseded(w.rows, w.ops, k);
      }
      InsertRowKeeps(left, Row(op.conversation, record));
    }
  }

  // ---------- Loading a review and reading the group ----------

  lemma StartReviewKeeps(w: World, t: nat, stage: Stage, conversation: string, id: string)
    requires Inv(w) && t !in w.ops && Known(w.out, conversation)
    requires stage == CheckFetch ==> SharedClientFree(w)
    requires stage != CheckFetch ==> w.ops == map[]
    requires var at := Reviewed(w.rows, conversation, id);
             || stage == CheckFetch || stage == PublishFetch
             || (stage == NotifyFetch && (at.Some? ==>
                   && w.rows[at.value].record.review.state == Published
                   && w.rows[at.value].record.review.notification == Silent))
    ensures Inv(StartReview(w, t, stage, conversation, Reviewed(w.rows, conversation, id)))
  {
    var at := Reviewed(w.rows, conversation, id);
    if at.Some? {
      var op := Reviewing(stage, conversation, at.value, w.rows[at.value].record);
      assert RecordOk(w.out, conversation, at.value, op.record);
      PutReviewingKeeps(w, t, op);
    }
  }

  /**
   A read decides a pending review completely: it stays as it is exactly when the server is
   still one version before the reviewed revision, so its PATCH can still be accepted.
   */
  lemma ObserveDecides(out: Outside, conversation: string, record: Record)
    requires LogsOk(out) && Anchored(out, conversation, record)
    ensures var group := Current(out, conversation);
            var seen := Observe(record.review, group);
            && (Passed(out, conversation, record.review) ==>
                  seen.state == if group.description == record.review.after then Published else Conflict)
            && (!Passed(out, conversation, record.review) ==>
                  && seen == record.review
                  && record.review.revision == |out.groups[conversation]|
                  && group.description == record.review.before)
  {
    assert LogOk(out.groups[conversation]);
  }

  lemma CurrentIsSeen(out: Outside, conversation: string, review: Review)
    requires LogsOk(out) && Known(out, conversation) && Observe(review, Current(out, conversation)).state == Published
    requires review.state == Published ==> Passed(out, conversation, review)
    ensures Passed(out, conversation, review)
    ensures review.state == Published ==> SawPublished(out, conversation, review, Current(out, conversation))
  {
    assert LogOk(out.groups[conversation]);
  }

  lemma ObservedRecordOk(out: Outside, conversation: string, row: nat, record: Record)
    requires LogsOk(out) && RecordOk(out, conversation, row, record)
    ensures Known(out, conversation)
    ensures RecordOk(out, conversation, row, record.(review := Observe(record.review, Current(out, conversation))))
  {
    ObserveDecides(out, conversation, record);
  }

  lemma ObservedIsReviewing(w: World, t: nat, stage: Stage)
    requires Inv(w) && t in w.ops && w.ops[t].Reviewing? && Known(w.out, w.ops[t].conversation)
    requires || (w.ops[t].stage == CheckFetch && stage == CheckSave)
             || (w.ops[t].stage == PublishFetch && stage == PublishFinish(Current(w.out, w.ops[t].conversation)))
             || (w.ops[t].stage == NotifyFetch && stage == NotifySettle)
    ensures var op := Observed(w.ops[t], Current(w.out, w.ops[t].conversation));
            op.Reviewing? && ReviewingOk(w.out, w.rows, op.(stage := stage))
  {
    assert OpOk(w.out, w.rows, w.ops[t]);
    ObservedRecordOk(w.out, w.ops[t].conversation, w.ops[t].row, w.ops[t].record);
  }

  lemma FetchForCheckKeeps(len: Record -> nat, w: World, t: nat)
    requires Inv(w) && Next(len, w, FetchForCheck(t)).Some?
    ensures Inv(Next(len, w, FetchForCheck(t)).value)
  {
    ObservedIsReviewing(w, t, CheckSave);
    PutReviewingKeeps(w, t, Observed(w.ops[t], Current(w.out, w.ops[t].conversation)).(stage := CheckSave));
  }

  /** What a publish makes of a review it has read: on to its PATCH, or to the end. */
  function Publishable(op: Op, group: Group): (r: Op)
    requires op.Reviewing?
    ensures r.Reviewing? && r.conversation == op.conversation && r.row == op.row
  {
    var seen := Observed(op, group);
    if seen.record.review.state in {Prepared, Unconfirmed}
    then WithState(seen, Unconfirmed).(stage := PublishReserve(group)) else seen.(stage := PublishFinish(group))
  }

  lemma PublishableIsReviewing(w: World, t: nat)
    requires Inv(w) && t in w.ops && w.ops[t].Reviewing? && w.ops[t].stage == PublishFetch && Known(w.out, w.ops[t].conversation)
    ensures ReviewingOk(w.out, w.rows, Publishable(w.ops[t], Current(w.out, w.ops[t].conversation)))
  {
    ObservedIsReviewing(w, t, PublishFinish(Current(w.out, w.ops[t].conversation)));
  }

  lemma FetchForPublishKeeps(len: Record -> nat, w: World, t: nat)
    requires Inv(w) && Next(len, w, FetchForPublish(t)).Some?
    ensures Inv(Next(len, w, FetchForPublish(t)).value)
  {
    var group := Current(w.out, w.ops[t].conversation);
    if IsEditor(group, w.account) {
      PublishableIsReviewing(w, t);
      PutReviewingKeeps(w, t, Publishable(w.ops[t], group));
      assert Next(len, w, FetchForPublish(t)) == Some(Put(w, t, Publishable(w.ops[t], group)));
    } else {
      EndKeeps(w, t);
    }
  }

  lemma ReservableNotice(w: World, t: nat, now: nat)
    requires Inv(w) && t in w.ops && w.ops[t].Reviewing? && w.ops[t].stage == NotifyFetch
    requires Known(w.out, w.ops[t].conversation)
    requires Observe(w.ops[t].record.review, Current(w.out, w.ops[t].conversation)).state == Published
    ensures var group := Current(w.out, w.ops[t].conversation);
            var op := Observed(w.ops[t], group);
            ReviewingOk(w.out, w.rows, op.(stage := NotifyReserve(group),
                                           record := op.record.(timestamp := Some(now),
                                             review := op.record.review.(notification := Uncertain))))
  {
    assert OpOk(w.out, w.rows, w.ops[t]);
    CurrentIsSeen(w.out, w.ops[t].conversation, w.ops[t].record.review);
  }

  lemma FetchForNotifyKeeps(len: Record -> nat, w: World, t: nat, allowed: bool, now: nat)
    requires Inv(w) && Next(len, w, FetchForNotify(t, allowed, now)).Some?
    ensures Inv(Next(len, w, FetchForNotify(t, allowed, now)).value)
  {
    var group := Current(w.out, w.ops[t].conversation);
    var seen := Observed(w.ops[t], group);
    if !IsEditor(group, w.account) {
      EndKeeps(w, t);
    } else if seen.record.review.state != Published {
      ObservedIsReviewing(w, t, NotifySettle);
      PutReviewingKeeps(w, t, seen.(stage := NotifySettle));
    } else if allowed && now <= MAX_TIMESTAMP {
      ReservableNotice(w, t, now);
      PutReviewingKeeps(w, t, seen.(stage := NotifyReserve(group),
                                    record := seen.record.(timestamp := Some(now),
                                      review := seen.record.review.(notification := Uncertain))));
    } else {
      EndKeeps(w, t);
    }
  }

  // ---------- The network ----------

  /** The call that holds the client alone moves on, and only its own review's traffic grows. */
  lemma LoneStepKeeps(w: World, t: nat, op: Op, out: Outside)
    requires Inv(w) && t in w.ops && NeedsClientAlone(w.ops[t])
    requires op.Reviewing? && NeedsClientAlone(op) && op.row == w.ops[t].row
    requires ReviewingOk(out, w.rows, op)
    requires Extends(w.out, out) && out.groups == w.out.groups && out.accepted == w.out.accepted
    requires forall row: nat | InNet(out, row) :: InNet(w.out, row) || row == op.row
    requires forall row: nat | WasSent(out, row) :: WasSent(w.out, row) || row == op.row
    requires RecordOk(out, op.conversation, op.row, w.rows[op.row].record)
    requires PatchesOk(out, w.rows) && SendsOk(out, w.rows)
    ensures Inv(w.(ops := w.ops[t := op], out := out))
  {
    var ops := w.ops[t := op];
    forall k | 0 <= k < |w.rows| ensures RecordOk(out, w.rows[k].conversation, k, w.rows[k].record) {
      if k != op.row { RecordSurvives(w.out, out, w.rows[k].conversation, k, w.rows[k].record); }
    }
    assert forall u | u in ops :: u == t;
    forall k | 0 <= k < |w.rows| && Superseded(w.rows, ops, k) ensures Retired(out, w.rows, k) {
      assert k != op.row;
      assert Superseded(w.rows, w.ops, k);
      assert Retired(w.out, w.rows, k);
    }
    AcceptancesSurvive(w.out, out, w.rows);
  }

  lemma OneMorePatch(out: Outside, patch: Patch)
    ensures var next := out.(net := out.net + {patch});
            && (forall row: nat :: InNet(next, row) <==> InNet(out, row) || row == patch.row)
            && forall row: nat :: WasSent(next, row) == WasSent(out, row)
  {
    var next := out.(net := out.net + {patch});
    forall row: nat ensures InNet(next, row) <==> InNet(out, row) || row == patch.row {
      if InNet(out, row) {
        var p :| p in out.net && p.row == row;
        assert p in next.net;
      }
      assert patch in next.net;
    }
    forall row: nat ensures WasSent(next, row) == WasSent(out, row) {}
  }

  lemma SendPatchKeeps(len: Record -> nat, w: World, t: nat)
    requires Inv(w) && Next(len, w, SendPatch(t)).Some?
    ensures Inv(Next(len, w, SendPatch(t)).value)
  {
    var op := w.ops[t];
    assert OpOk(w.out, w.rows, op);
    var patch := Patch(op.conversation, op.row, op.record.review.revision, op.record.encrypted);
    var out := w.out.(net := w.out.net + {patch});
    OneMorePatch(w.out, patch);
    SendsSurvive(w.out, out, w.rows);
    RecordSurvives(w.out, out, op.conversation, op.row, op.record);
    LoneStepKeeps(w, t, op.(stage := PublishWait(op.stage.seen)), out);
    assert Next(len, w, SendPatch(t)) == Some(w.(ops := w.ops[t := op.(stage := PublishWait(op.stage.seen))], out := out));
  }

  lemma PatchReplyKeeps(len: Record -> nat, w: World, t: nat, ok: bool)
    requires Inv(w) && Next(len, w, PatchReply(t, ok)).Some?
    ensures Inv(Next(len, w, PatchReply(t, ok)).value)
  {
    var op := w.ops[t];
    assert OpOk(w.out, w.rows, op);
    if ok {
      var i :| 0 <= i < |w.out.accepted| && w.out.accepted[i].row == op.row;
      assert AcceptanceOk(w.out, w.rows, w.out.accepted[i]);
    }
    PutReviewingKeeps(w, t, Next(len, w, PatchReply(t, ok)).value.ops[t]);
  }

  lemma OneMoreSend(out: Outside, rows: seq<Row>, n: Notification)
    requires SendsOk(out, rows) && !WasSent(out, n.row)
    requires NotificationOk(out.(sends := out.sends + [n]), rows, n)
    ensures SendsOk(out.(sends := out.sends + [n]), rows)
    ensures forall row: nat :: WasSent(out.(sends := out.sends + [n]), row) <==> WasSent(out, row) || row == n.row
  {
    var next := out.(sends := out.sends + [n]);
    var last := |out.sends|;
    assert next.sends[last] == n;
    forall row: nat ensures WasSent(next, row) <==> WasSent(out, row) || row == n.row {
      if WasSent(out, row) {
        var i :| 0 <= i < last && out.sends[i].row == row;
        assert next.sends[i].row == row;
      }
    }
    forall i | 0 <= i < |next.sends| ensures NotificationOk(next, rows, next.sends[i]) {
      if i < last { assert NotificationOk(out, rows, out.sends[i]); }
    }
  }

  lemma SendNoticeKeeps(w: World, t: nat)
    requires Inv(w) && t in w.ops && w.ops[t].Reviewing? && w.ops[t].stage.NotifySend? && w.ops[t].record.timestamp.Some?
    ensures Inv(SendNow(w, t))
  {
    var op := w.ops[t];
    assert OpOk(w.out, w.rows, op);
    var out := SendNow(w, t).out;
    OneMoreSend(w.out, w.rows, out.sends[|w.out.sends|]);
    assert forall row: nat :: InNet(out, row) == InNet(w.out, row);
    RecordSurvives(w.out, out, op.conversation, op.row, op.record);
    LoneStepKeeps(w, t, op.(stage := NotifyWait), out);
  }

  lemma AcknowledgedIsReviewing(w: World, t: nat)
    requires Inv(w) && t in w.ops && w.ops[t].Reviewing? && w.ops[t].stage == NotifyWait
    ensures var next := Acknowledge(w, t);
            ReviewingOk(next.out, w.rows, next.ops[t]) && NeedsClientAlone(next.ops[t]) && next.ops[t].row == w.ops[t].row
  {
    var op := w.ops[t];
    assert OpOk(w.out, w.rows, op);
    assert RecordOk(w.out, op.conversation, op.row, w.rows[op.row].record);
    var out := Acknowledge(w, t).out;
    assert InNet(out, op.row) == InNet(w.out, op.row) && WasSent(out, op.row) == WasSent(w.out, op.row);
    RecordSurvives(w.out, out, op.conversation, op.row, op.record);
  }

  lemma NoticeReplyKeeps(w: World, t: nat)
    requires Inv(w) && t in w.ops && w.ops[t].Reviewing? && w.ops[t].stage == NotifyWait
    ensures Inv(Acknowledge(w, t))
  {
    var op, next := w.ops[t], Acknowledge(w, t);
    var out := next.out;
    AcknowledgedIsReviewing(w, t);
    assert forall row: nat :: InNet(out, row) == InNet(w.out, row);
    assert forall row: nat :: WasSent(out, row) == WasSent(w.out, row);
    SendsSurvive(w.out, out, w.rows);
    assert RecordOk(w.out, op.conversation, op.row, w.rows[op.row].record);
    RecordSurvives(w.out, out, op.conversation, op.row, w.rows[op.row].record);
    LoneStepKeeps(w, t, next.ops[t], out);
  }

  lemma MemberEditKeeps(len: Record -> nat, w: World, conversation: string, group: Group)
    requires Inv(w) && Next(len, w, MemberEdit(conversation, group)).Some?
    ensures Inv(Next(len, w, MemberEdit(conversation, group)).value)
  {
    var out := Grow(w.out, conversation, group);
    assert LogOk(w.out.groups[conversation]);
    AcceptancesSurvive(w.out, out, w.rows);
    OutsideChangeKeeps(w, out);
  }

  function Delivered(out: Outside, patch: Patch): Outside
    requires Known(out, patch.conversation)
  {
    var last := Current(out, patch.conversation);
    var next := last.(version := patch.revision, description := patch.encrypted.plain);
    Grow(out, patch.conversation, next).(accepted := out.accepted + [
      Acceptance(patch.conversation, patch.row, patch.revision, last.description, next.description)])
  }

  /** A delivered PATCH replaces the reviewed text, and its review was never accepted before. */
  lemma AcceptanceIsNew(w: World, patch: Patch)
    requires Inv(w) && patch in w.out.net && Known(w.out, patch.conversation)
    requires patch.revision == |w.out.groups[patch.conversation]|
    ensures var out := Delivered(w.out, patch);
            && AcceptanceOk(out, w.rows, out.accepted[|w.out.accepted|])
            && LogsOk(out) && forall i | 0 <= i < |w.out.accepted| :: w.out.accepted[i].row != patch.row
  {
    assert PatchOk(w.rows, patch);
    assert RecordOk(w.out, patch.conversation, patch.row, w.rows[patch.row].record);
    assert LogOk(w.out.groups[patch.conversation]);
    forall i | 0 <= i < |w.out.accepted| ensures w.out.accepted[i].row != patch.row {
      assert AcceptanceOk(w.out, w.rows, w.out.accepted[i]);
    }
  }

  lemma DeliveryExtends(out: Outside, patch: Patch)
    requires Known(out, patch.conversation)
    ensures Extends(out, Delivered(out, patch))
  {
    var next := Delivered(out, patch);
    forall row: nat | WasAccepted(out, row) ensures WasAccepted(next, row) {
      var i :| 0 <= i < |out.accepted| && out.accepted[i].row == row;
      assert next.accepted[i].row == row;
    }
  }

  lemma AcceptanceIsRecorded(w: World, patch: Patch)
    requires Inv(w) && patch in w.out.net && Known(w.out, patch.conversation)
    requires patch.revision == |w.out.groups[patch.conversation]|
    ensures var out := Delivered(w.out, patch);
            Extends(w.out, out) && LogsOk(out) && AcceptancesOk(out, w.rows)
  {
    var out := Delivered(w.out, patch);
    AcceptanceIsNew(w, patch);
    DeliveryExtends(w.out, patch);
    forall i | 0 <= i < |w.out.accepted| ensures AcceptanceOk(out, w.rows, out.accepted[i]) {
      assert AcceptanceOk(w.out, w.rows, w.out.accepted[i]);
    }
  }

  lemma DeliverKeeps(len: Record -> nat, w: World, patch: Patch)
    requires Inv(w) && Next(len, w, Deliver(patch)).Some?
    ensures Inv(Next(len, w, Deliver(patch)).value)
  {
    var next := Next(len, w, Deliver(patch)).value;
    if next != w {
      AcceptanceIsRecorded(w, patch);
      OutsideChangeKeeps(w, next.out);
    }
  }

  lemma CrashKeeps(w: World)
    requires Inv(w)
    ensures Inv(w.(ops := map[]))
  {
    forall k | 0 <= k < |w.rows| && Superseded(w.rows, map[], k) ensures Retired(w.out, w.rows, k) {
      assert Superseded(w.rows, w.ops, k);
    }
  }

  lemma PreviewEventKeeps(len: Record -> nat, w: World, e: Event)
    requires e.StartPrepare? || e.ChooseWorkspace? || e.FetchForPrepare? || e.FinishPrepare?
    requires Inv(w) && Next(len, w, e).Some?
    ensures Inv(Next(len, w, e).value)
  {
    match e
    case StartPrepare(t, conversation, command, id) => StartPrepareKeeps(len, w, t, conversation, command, id);
    case ChooseWorkspace(t, links) =>
      EndKeeps(w, t);
      var found := FindWorkspace(links, w.ops[t].step.workspaceId);
      if !CommandUsed(w.rows, w.ops[t].command) && found.Some? {
        assert OpOk(w.out, w.rows, w.ops[t]);
        PreviewStepKeeps(w, t, Fetching(found.value));
      }
    case FetchForPrepare(t, id, nonce) =>
      EndKeeps(w, t);
      var op := w.ops[t];
      assert OpOk(w.out, w.rows, op);
      var record := PrepareRecord(op.command, op.step.workspace, Current(w.out, op.conversation), id, nonce);
      PreparedRecordIsAnchored(w.out, op.conversation, op.command, op.step.workspace, id, nonce);
      if record.Some? { PreviewStepKeeps(w, t, Saving(record.value)); }
    case FinishPrepare(t) => FinishPrepareKeeps(len, w, t);
  }

  lemma CheckOrPublishEventKeeps(len: Record -> nat, w: World, e: Event)
    requires e.StartCheck? || e.FetchForCheck? || e.FinishCheck? || e.StartPublish? || e.FetchForPublish?
             || e.ReservePublish? || e.SendPatch? || e.PatchReply? || e.FinishPublish?
    requires Inv(w) && Next(len, w, e).Some?
    ensures Inv(Next(len, w, e).value)
  {
    match e
    case StartCheck(t, conversation, id) => StartReviewKeeps(w, t, CheckFetch, conversation, id);
    case FetchForCheck(t) => FetchForCheckKeeps(len, w, t);
    case FinishCheck(t) => FinishReviewKeeps(len, w, t);
    case StartPublish(t, conversation, id) => StartReviewKeeps(w, t, PublishFetch, conversation, id);
    case FetchForPublish(t) => FetchForPublishKeeps(len, w, t);
    case ReservePublish(t) => ReserveKeeps(len, w, t, PublishSend(w.ops[t].stage.seen));
    case SendPatch(t) => SendPatchKeeps(len, w, t);
    case PatchReply(t, ok) => PatchReplyKeeps(len, w, t, ok);
    case FinishPublish(t) => FinishReviewKeeps(len, w, t);
  }

  lemma NotifyStartKeeps(len: Record -> nat, w: World, e: Event)
    requires e.StartNotify? || e.FetchForNotify? || e.SettleNotify?
    requires Inv(w) && Next(len, w, e).Some?
    ensures Inv(Next(len, w, e).value)
  {
    match e
    case StartNotify(t, conversation, id) =>
      if Next(len, w, e).value != w { StartReviewKeeps(w, t, NotifyFetch, conversation, id); }
    case FetchForNotify(t, allowed, now) => FetchForNotifyKeeps(len, w, t, allowed, now);
    case SettleNotify(t) => FinishReviewKeeps(len, w, t);
  }

  lemma NotifySaveKeeps(len: Record -> nat, w: World, e: Event)
    requires e.ReserveNotify? || e.FinishNotify?
    requires Inv(w) && Next(len, w, e).Some?
    ensures Inv(Next(len, w, e).value)
  {
    match e
    case ReserveNotify(t) => ReserveKeeps(len, w, t, NotifySend(w.ops[t].stage.seen));
    case FinishNotify(t) => FinishReviewKeeps(len, w, t);
  }

  lemma NotifySendKeeps(len: Record -> nat, w: World, e: Event)
    requires e.SendNotice? || e.NoticeReply?
    requires Inv(w) && Next(len, w, e).Some?
    ensures Inv(Next(len, w, e).value)
  {
    match e
    case SendNotice(t) => SendNoticeKeeps(w, t);
    case NoticeReply(t, ok) => if ok { NoticeReplyKeeps(w, t); } else { EndKeeps(w, t); }
  }

  lemma CallEventKeeps(len: Record -> nat, w: World, e: Event)
    requires !e.Drop? && !e.Crash? && !e.MemberEdit? && !e.Deliver?
    requires Inv(w) && Next(len, w, e).Some?
    ensures Inv(Next(len, w, e).value)
  {
    if e.StartPrepare? || e.ChooseWorkspace? || e.FetchForPrepare? || e.FinishPrepare? {
      PreviewEventKeeps(len, w, e);
    } else if e.StartNotify? || e.FetchForNotify? || e.SettleNotify? {
      NotifyStartKeeps(len, w, e);
    } else if e.ReserveNotify? || e.FinishNotify? {
      NotifySaveKeeps(len, w, e);
    } else if e.SendNotice? || e.NoticeReply? {
      NotifySendKeeps(len, w, e);
    } else {
      CheckOrPublishEventKeeps(len, w, e);
    }
  }

  /** Every step of every call, every accident and every change by others keeps the invariant. */
  lemma StepKeeps(len: Record -> nat, w: World, e: Event)
    requires Inv(w) && Next(len, w, e).Some?
    ensures Inv(Next(len, w, e).value)
  {
    match e
    case Drop(t) => EndKeeps(w, t);
    case Crash => CrashKeeps(w);
    case MemberEdit(conversation, group) => MemberEditKeeps(len, w, conversation, group);
    case Deliver(patch) => DeliverKeeps(len, w, patch);
    case _ => CallEventKeeps(len, w, e);
  }
}
