/** Sharing a workspace link in a Signal group, step by step. */
module GroupWorkspace {
  // Sharing a workspace link in a Signal group: preview, publish, check and notify, each cut at
  // its awaits, over a durable table of reviews and a server that accepts only the next revision.
  //
  // One `Event` is one atomic step: a database transaction, the answer to a fetch, a hand-over to
  // the network, a delivery. Between two steps anything else may happen: other members edit, old
  // PATCHes arrive again, an operation is dropped (an error, a timeout, a cancelled future), or the
  // whole worker crashes. `publish` and `notify` need the client exclusively; `prepare` and `check`
  // may overlap with one another.

  import opened Wrappers
  import opened Proposal

  type Revision = v: int | 0 <= v < 0x1_0000_0000

  datatype State = Prepared | Unconfirmed | Published | Conflict

  datatype Notice = Silent | Uncertain | Sent

  datatype Access = Any | Member | Administrator | Unsatisfiable | Unknown

  datatype GroupMember = GroupMember(account: nat, administrator: bool)

  /** A group as the server stores it; an absent description reads as the empty text. */
  datatype Group = Group(
    version: Revision, description: string, terminated: bool, access: Option<Access>, members: seq<GroupMember>)

  /** Ciphertext is opaque and fixed when a review is prepared; only the server opens it. */
  datatype Ciphertext = Ciphertext(plain: string, nonce: nat)

  datatype Review = Review(
    id: string, workspace: Workspace, before: string, after: string,
    revision: Revision, state: State, notification: Notice)

  /** `change` stands for the signed group change, named by the revision that it produced. */
  datatype Record = Record(
    command: string, review: Review, encrypted: Ciphertext, change: Option<Revision>, timestamp: Option<nat>)

  datatype Row = Row(conversation: string, record: Record)

  /** `row` names the review that a PATCH, an acceptance or a send belongs to (a history annotation). */
  datatype Patch = Patch(conversation: string, row: nat, revision: Revision, encrypted: Ciphertext)

  datatype Acceptance = Acceptance(conversation: string, row: nat, revision: Revision, replaced: string, installed: string)

  datatype Notification = Notification(
    conversation: string, row: nat, seen: Group, change: Option<Revision>, timestamp: nat)

  datatype PrepareStep = Choosing(workspaceId: WorkspaceId) | Fetching(workspace: Workspace) | Saving(record: Record)

  datatype Stage =
    | CheckFetch | CheckSave
    | PublishFetch | PublishReserve(seen: Group) | PublishSend(seen: Group) | PublishWait(seen: Group)
    | PublishFinish(seen: Group)
    | NotifyFetch | NotifySettle | NotifyReserve(seen: Group) | NotifySend(seen: Group) | NotifyWait | NotifyFinish

  /** A call in progress, with its own copy of the record it loaded from table row `row`. */
  datatype Op =
    | Preparing(conversation: string, command: string, step: PrepareStep)
    | Reviewing(stage: Stage, conversation: string, row: nat, record: Record)

  datatype Outside = Outside(
    groups: map<string, seq<Group>>,    // the server: every version each group ever had
    net: set<Patch>,                    // PATCHes that may still be delivered, any number of times
    accepted: seq<Acceptance>,
    sends: seq<Notification>,           // notifications handed to the network
    acknowledged: set<nat>)             // rows whose notification was acknowledged

  datatype World = World(
    account: nat,
    rows: seq<Row>,                     // durable, in rowid order
    ops: map<nat, Op>,                  // lost in a crash
    out: Outside)                       // everything that the worker cannot take back

  datatype Event =
    | StartPrepare(t: nat, conversation: string, command: string, workspaceId: WorkspaceId)
    | ChooseWorkspace(t: nat, links: seq<Workspace>)
    | FetchForPrepare(t: nat, id: string, nonce: nat)
    | FinishPrepare(t: nat)
    | StartCheck(t: nat, conversation: string, id: string)
    | FetchForCheck(t: nat)
    | FinishCheck(t: nat)
    | StartPublish(t: nat, conversation: string, id: string)
    | FetchForPublish(t: nat)
    | ReservePublish(t: nat)
    | SendPatch(t: nat)
    | PatchReply(t: nat, ok: bool)
    | FinishPublish(t: nat)
    | StartNotify(t: nat, conversation: string, id: string)
    | FetchForNotify(t: nat, sendAllowed: bool, now: nat)
    | SettleNotify(t: nat)
    | ReserveNotify(t: nat)
    | SendNotice(t: nat)
    | NoticeReply(t: nat, ok: bool)
    | FinishNotify(t: nat)
    | Drop(t: nat)
    | Crash
    | MemberEdit(conversation: string, group: Group)
    | Deliver(patch: Patch)

  const MAX_ROWS := 2000
  const MAX_TABLE_BYTES := 8 * 1024 * 1024
  const MAX_BODY_BYTES := 32768
  const MAX_TIMESTAMP := 0x7fff_ffff_ffff_ffff

  // ---------- The durable table ----------

  /** Position of the newest row of a conversation. */
  function Newest(rows: seq<Row>, conversation: string): (r: Option<nat>)
    ensures r.Some? ==> r.value < |rows| && rows[r.value].conversation == conversation
    ensures r.Some? ==> forall j | r.value < j < |rows| :: rows[j].conversation != conversation
    ensures r.None? ==> forall j | 0 <= j < |rows| :: rows[j].conversation != conversation
  {
    if rows == [] then None
    else if rows[|rows| - 1].conversation == conversation then Some(|rows| - 1)
    else Newest(rows[..|rows| - 1], conversation)
  }

  function IndexOf(rows: seq<Row>, id: string): (r: Option<nat>)
    ensures r.Some? ==> r.value < |rows| && rows[r.value].record.review.id == id
    ensures r.None? ==> forall j | 0 <= j < |rows| :: rows[j].record.review.id != id
  {
    if rows == [] then None
    else if rows[|rows| - 1].record.review.id == id then Some(|rows| - 1)
    else IndexOf(rows[..|rows| - 1], id)
  }

  predicate CommandUsed(rows: seq<Row>, command: string) {
    exists k | 0 <= k < |rows| :: rows[k].record.command == command
  }

  function TableBytes(len: Record -> nat, rows: seq<Row>): nat {
    if rows == [] then 0 else TableBytes(len, rows[..|rows| - 1]) + len(rows[|rows| - 1].record)
  }

  /** Insert or overwrite in one transaction, or fail and leave the table alone. */
  function Save(len: Record -> nat, rows: seq<Row>, conversation: string, record: Record): Option<seq<Row>> {
    var at := IndexOf(rows, record.review.id);
    var others := if at.Some? then |rows| - 1 else |rows|;
    var bytes := TableBytes(len, rows) - (if at.Some? then len(rows[at.value].record) else 0);
    if others >= MAX_ROWS || bytes + len(record) > MAX_TABLE_BYTES || len(record) > MAX_BODY_BYTES then None
    else if at.Some? then Some(rows[at.value := rows[at.value].(record := record)])
    else if CommandUsed(rows, record.command) then None
    else Some(rows + [Row(conversation, record)])
  }

  // ---------- Decisions ----------

  predicate IsEditor(group: Group, account: nat) {
    && !group.terminated
    && match FindMember(group.members, account)
       case None => false
       case Some(member) =>
         match group.access
         case Some(Any) => true
         case Some(Member) => true
         case Some(Administrator) => member.administrator
         case _ => false
  }

  function FindMember(members: seq<GroupMember>, account: nat): Option<GroupMember> {
    if members == [] then None
    else if members[0].account == account then Some(members[0])
    else FindMember(members[1..], account)
  }

  function FindWorkspace(links: seq<Workspace>, id: WorkspaceId): Option<Workspace> {
    if links == [] then None
    else if links[0].id == id then Some(links[0])
    else FindWorkspace(links[1..], id)
  }

  /** What a read of the group says about a review. */
  function Observe(review: Review, group: Group): Review {
    if group.version >= review.revision && group.description == review.after then
      review.(state := Published)
    else if group.version >= review.revision || group.version + 1 != review.revision
            || group.description != review.before then
      review.(state := Conflict)
    else review
  }

  /** The review a caller names, if it is still the newest one of its conversation. */
  function Reviewed(rows: seq<Row>, conversation: string, id: string): (r: Option<nat>)
    ensures r.Some? ==> r == Newest(rows, conversation) && rows[r.value].record.review.id == id
  {
    var newest := Newest(rows, conversation);
    if |id| == 64 && newest.Some? && rows[newest.value].record.review.id == id then newest else None
  }

  // ---------- Steps ----------

  predicate NeedsClientAlone(op: Op) {
    op.Reviewing? && !op.stage.CheckFetch? && !op.stage.CheckSave?
  }

  predicate SharedClientFree(w: World) {
    forall t | t in w.ops :: !NeedsClientAlone(w.ops[t])
  }

  function Put(w: World, t: nat, op: Op): World {
    w.(ops := w.ops[t := op])
  }

  function End(w: World, t: nat): World {
    w.(ops := map u | u in w.ops && u != t :: w.ops[u])
  }

  /** The group exists and has at least one version; anything else is not a Signal group. */
  predicate Known(out: Outside, conversation: string) {
    conversation in out.groups && out.groups[conversation] != []
  }

  function Current(out: Outside, conversation: string): Group
    requires Known(out, conversation)
  {
    out.groups[conversation][|out.groups[conversation]| - 1]
  }

  /** A review nonce is random: it never repeats one that is stored or about to be. */
  predicate FreshId(w: World, id: string) {
    && |id| == 64
    && IndexOf(w.rows, id).None?
    && forall t | t in w.ops && w.ops[t].Preparing? && w.ops[t].step.Saving? :: w.ops[t].step.record.review.id != id
  }

  function PrepareRecord(command: string, workspace: Workspace, group: Group, id: string, nonce: nat): Option<Record> {
    var before := group.description;
    match Propose(before, workspace)
    case Err(_) => None
    case Ok(after) =>
      if before != after && group.version == 0xffff_ffff then None
      else
        Some(Record(command,
               Review(id, workspace, before, after,
                      if before == after then group.version else group.version + 1,
                      if before == after then Published else Prepared, Silent),
               Ciphertext(after, nonce), None, None))
  }

  /** The world after an event, or None when the event cannot happen. A refused call changes nothing. */
  function Next(len: Record -> nat, w: World, e: Event): Option<World> {
    match e
    case StartPrepare(t, conversation, command, workspaceId) =>
      if t in w.ops || !SharedClientFree(w) || !Known(w.out, conversation) then None
      else
        var newest := Newest(w.rows, conversation);
        if newest.Some? && (|| w.rows[newest.value].record.command == command
                            || w.rows[newest.value].record.review.state == Unconfirmed)
        then Some(w)
        else Some(Put(w, t, Preparing(conversation, command, Choosing(workspaceId))))
    case ChooseWorkspace(t, links) =>
      if !(t in w.ops && w.ops[t].Preparing? && w.ops[t].step.Choosing?) then None
      else
        var found := FindWorkspace(links, w.ops[t].step.workspaceId);
        if CommandUsed(w.rows, w.ops[t].command) || found.None? then Some(End(w, t))
        else Some(Put(w, t, w.ops[t].(step := Fetching(found.value))))
    case FetchForPrepare(t, id, nonce) =>
      if !(t in w.ops && w.ops[t].Preparing? && w.ops[t].step.Fetching? && Known(w.out, w.ops[t].conversation)
           && FreshId(w, id)) then None
      else
        var group := Current(w.out, w.ops[t].conversation);
        var record := PrepareRecord(w.ops[t].command, w.ops[t].step.workspace, group, id, nonce);
        if !IsEditor(group, w.account) || record.None? then Some(End(w, t))
        else Some(Put(w, t, w.ops[t].(step := Saving(record.value))))
    case FinishPrepare(t) =>
      if !(t in w.ops && w.ops[t].Preparing? && w.ops[t].step.Saving?) then None
      else Some(SaveAndEnd(len, w, t, w.ops[t].conversation, w.ops[t].step.record))
    case StartCheck(t, conversation, id) =>
      if t in w.ops || !SharedClientFree(w) || !Known(w.out, conversation) then None
      else Some(StartReview(w, t, CheckFetch, conversation, Reviewed(w.rows, conversation, id)))
    case FetchForCheck(t) =>
      if !InStage(w, t, CheckFetch) then None
      else Some(Put(w, t, Observed(w.ops[t], Current(w.out, w.ops[t].conversation)).(stage := CheckSave)))
    case FinishCheck(t) =>
      if !InStage(w, t, CheckSave) then None
      else Some(SaveAndEnd(len, w, t, w.ops[t].conversation, w.ops[t].record))
    case StartPublish(t, conversation, id) =>
      if w.ops != map[] || !Known(w.out, conversation) then None
      else
        var at := Reviewed(w.rows, conversation, id);
        if at.Some? && w.rows[at.value].record.review.state == Conflict then Some(w)
        else Some(StartReview(w, t, PublishFetch, conversation, at))
    case FetchForPublish(t) =>
      if !InStage(w, t, PublishFetch) then None
      else
        var group := Current(w.out, w.ops[t].conversation);
        var op := Observed(w.ops[t], group);
        if !IsEditor(group, w.account) then Some(End(w, t))
        else if op.record.review.state in {Prepared, Unconfirmed} then
          Some(Put(w, t, WithState(op, Unconfirmed).(stage := PublishReserve(group))))
        else Some(Put(w, t, op.(stage := PublishFinish(group))))
    case ReservePublish(t) =>
      if !(t in w.ops && w.ops[t].Reviewing? && w.ops[t].stage.PublishReserve?) then None
      else Some(SaveAndGo(len, w, t, PublishSend(w.ops[t].stage.seen)))
    case SendPatch(t) =>
      if !(t in w.ops && w.ops[t].Reviewing? && w.ops[t].stage.PublishSend?) then None
      else
        var op := w.ops[t];
        Some(Put(w, t, op.(stage := PublishWait(op.stage.seen))).(out := w.out.(net :=
               w.out.net + {Patch(op.conversation, op.row, op.record.review.revision, op.record.encrypted)})))
    case PatchReply(t, ok) =>
      if !(t in w.ops && w.ops[t].Reviewing? && w.ops[t].stage.PublishWait?) then None
      else if !ok then Some(Put(w, t, w.ops[t].(stage := PublishFinish(w.ops[t].stage.seen))))
      else if !WasAccepted(w.out, w.ops[t].row) then None
      else
        var op := WithState(w.ops[t], Published);
        Some(Put(w, t, op.(stage := PublishFinish(op.stage.seen),
                           record := op.record.(change := Some(op.record.review.revision)))))
    case FinishPublish(t) =>
      if !(t in w.ops && w.ops[t].Reviewing? && w.ops[t].stage.PublishFinish?) then None
      else Some(SaveAndEnd(len, w, t, w.ops[t].conversation, w.ops[t].record))
    case StartNotify(t, conversation, id) =>
      if w.ops != map[] || !Known(w.out, conversation) then None
      else
        var at := Reviewed(w.rows, conversation, id);
        if at.Some? && (|| w.rows[at.value].record.review.state != Published
                        || w.rows[at.value].record.review.notification != Silent)
        then Some(w)
        else Some(StartReview(w, t, NotifyFetch, conversation, at))
    case FetchForNotify(t, sendAllowed, now) =>
      if !InStage(w, t, NotifyFetch) then None
      else
        var group := Current(w.out, w.ops[t].conversation);
        var op := Observed(w.ops[t], group);
        if !IsEditor(group, w.account) then Some(End(w, t))
        else if op.record.review.state != Published then Some(Put(w, t, op.(stage := NotifySettle)))
        else if !sendAllowed || now > MAX_TIMESTAMP then Some(End(w, t))
        else
          Some(Put(w, t, op.(stage := NotifyReserve(group),
                             record := op.record.(timestamp := Some(now),
                               review := op.record.review.(notification := Uncertain)))))
    case SettleNotify(t) =>
      if !InStage(w, t, NotifySettle) then None
      else Some(SaveAndEnd(len, w, t, w.ops[t].conversation, w.ops[t].record))
    case ReserveNotify(t) =>
      if !(t in w.ops && w.ops[t].Reviewing? && w.ops[t].stage.NotifyReserve?) then None
      else Some(SaveAndGo(len, w, t, NotifySend(w.ops[t].stage.seen)))
    case SendNotice(t) =>
      if !(t in w.ops && w.ops[t].Reviewing? && w.ops[t].stage.NotifySend? && w.ops[t].record.timestamp.Some?) then None
      else Some(SendNow(w, t))
    case NoticeReply(t, ok) =>
      if !InStage(w, t, NotifyWait) then None
      else if !ok then Some(End(w, t))
      else Some(Acknowledge(w, t))
    case FinishNotify(t) =>
      if !InStage(w, t, NotifyFinish) then None
      else Some(SaveAndEnd(len, w, t, w.ops[t].conversation, w.ops[t].record))
    case Drop(t) =>
      if t !in w.ops then None else Some(End(w, t))
    case Crash =>
      Some(w.(ops := map[]))
    case MemberEdit(conversation, group) =>
      if !Known(w.out, conversation) || group.version != |w.out.groups[conversation]| then None
      else Some(w.(out := Grow(w.out, conversation, group)))
    case Deliver(patch) =>
      if patch !in w.out.net || !Known(w.out, patch.conversation) then None
      else if patch.revision != |w.out.groups[patch.conversation]| then Some(w)
      else
        var last := Current(w.out, patch.conversation);
        var next := last.(version := patch.revision, description := patch.encrypted.plain);
        Some(w.(out := Grow(w.out, patch.conversation, next).(accepted := w.out.accepted + [
                  Acceptance(patch.conversation, patch.row, patch.revision, last.description, next.description)])))
  }

  /** The server stores one more version of a group. */
  function Grow(out: Outside, conversation: string, group: Group): Outside
    requires conversation in out.groups
  {
    out.(groups := out.groups[conversation := out.groups[conversation] + [group]])
  }

  predicate InStage(w: World, t: nat, stage: Stage) {
    t in w.ops && w.ops[t].Reviewing? && w.ops[t].stage == stage && Known(w.out, w.ops[t].conversation)
  }

  function StartReview(w: World, t: nat, stage: Stage, conversation: string, at: Option<nat>): World
    requires at.Some? ==> at.value < |w.rows|
  {
    if at.None? then w else Put(w, t, Reviewing(stage, conversation, at.value, w.rows[at.value].record))
  }

  function Observed(op: Op, group: Group): (r: Op)
    requires op.Reviewing?
    ensures r.Reviewing? && r.conversation == op.conversation && r.row == op.row
  {
    op.(record := op.record.(review := Observe(op.record.review, group)))
  }

  function WithState(op: Op, state: State): (r: Op)
    requires op.Reviewing?
    ensures r.Reviewing? && r.conversation == op.conversation && r.row == op.row
  {
    op.(record := op.record.(review := op.record.review.(state := state)))
  }

  /** The notification leaves; a signed change is attached only if it is the group's latest one. */
  function SendNow(w: World, t: nat): World
    requires t in w.ops && w.ops[t].Reviewing? && w.ops[t].stage.NotifySend? && w.ops[t].record.timestamp.Some?
  {
    var op := w.ops[t];
    var seen := op.stage.seen;
    var notification := Notification(op.conversation, op.row, seen,
                          if seen.version == op.record.review.revision then op.record.change else None,
                          op.record.timestamp.value);
    Put(w, t, op.(stage := NotifyWait)).(out := w.out.(sends := w.out.sends + [notification]))
  }

  function Acknowledge(w: World, t: nat): World
    requires t in w.ops && w.ops[t].Reviewing?
  {
    var op := w.ops[t];
    Put(w, t, op.(stage := NotifyFinish, record := op.record.(review := op.record.review.(notification := Sent))))
    .(out := w.out.(acknowledged := w.out.acknowledged + {op.row}))
  }

  function SaveAndEnd(len: Record -> nat, w: World, t: nat, conversation: string, record: Record): World {
    match Save(len, w.rows, conversation, record)
    case None => End(w, t)
    case Some(rows) => End(w.(rows := rows), t)
  }

  function SaveAndGo(len: Record -> nat, w: World, t: nat, stage: Stage): World
    requires t in w.ops && w.ops[t].Reviewing?
  {
    match Save(len, w.rows, w.ops[t].conversation, w.ops[t].record)
    case None => End(w, t)
    case Some(rows) => Put(w.(rows := rows), t, w.ops[t].(stage := stage))
  }

  predicate WasAccepted(out: Outside, row: nat) {
    exists i | 0 <= i < |out.accepted| :: out.accepted[i].row == row
  }

  // ---------- Runs ----------

  /** Versions are numbered from zero without gaps. */
  ghost predicate LogOk(log: seq<Group>) {
    log != [] && forall k | 0 <= k < |log| :: log[k].version == k
  }

  ghost predicate Init(w: World) {
    && w.rows == [] && w.ops == map[]
    && w.out.net == {} && w.out.accepted == [] && w.out.sends == [] && w.out.acknowledged == {}
    && forall c | c in w.out.groups :: LogOk(w.out.groups[c])
  }

  /** The world after a list of events, each of them possible where it happens. */
  ghost function Run(len: Record -> nat, w: World, events: seq<Event>): Option<World>
    decreases |events|
  {
    if events == [] then Some(w)
    else match Next(len, w, events[0])
      case None => None
      case Some(next) => Run(len, next, events[1..])
  }
}
