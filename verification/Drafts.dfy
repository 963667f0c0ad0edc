/** Versioned drafts with retry-safe commands. */
module Drafts {
  // One stored draft per conversation. A call is safe to send again while its own draft is the
  // stored one, and a call made on any other version than the stored one changes nothing. A stored
  // body is the encoding of its draft, and the encoding is injective, so bodies are compared as
  // drafts and measured by `bodyLen`.

  import opened Wrappers
  import opened Unicode

  datatype SendAttempt = SendAttempt(id: string, conversation: string, text: string, timestamp: nat)

  datatype Draft = Draft(version: nat, text: string, pending: Option<SendAttempt>)

  datatype Row = Row(conversation: string, command: string, draft: Draft)

  datatype Call = Call(conversation: string, request: string, expected: nat, text: string, pending: Option<SendAttempt>)

  datatype SaveError =
    | InvalidConversation | DraftTooLarge | InvalidPending | VersionExhausted
    | CommandReused | ChangedElsewhere | VersionMissing | StorageFull

  const MAX_MESSAGE_BYTES := 65536
  const MAX_ROWS := 2000
  const MAX_STORE_BYTES := 8 * 1024 * 1024
  const MAX_I64 := 0x7fff_ffff_ffff_ffff

  function Find(rows: seq<Row>, conversation: string): (r: Option<nat>)
    ensures r.Some? ==> r.value < |rows| && rows[r.value].conversation == conversation
    ensures r.None? ==> forall j | 0 <= j < |rows| :: rows[j].conversation != conversation
  {
    if rows == [] then None
    else if rows[|rows| - 1].conversation == conversation then Some(|rows| - 1)
    else Find(rows[..|rows| - 1], conversation)
  }

  function StoreBytes(bodyLen: Draft -> nat, rows: seq<Row>): nat {
    if rows == [] then 0 else StoreBytes(bodyLen, rows[..|rows| - 1]) + bodyLen(rows[|rows| - 1].draft)
  }

  /** The draft a call asks to store. */
  function Proposed(call: Call): Draft {
    Draft(call.expected + 1, call.text, call.pending)
  }

  predicate PendingOk(call: Call) {
    call.pending.Some? ==>
      var attempt := call.pending.value;
      && attempt.conversation == call.conversation && Utf8Len(attempt.text) <= MAX_MESSAGE_BYTES
      && attempt.id != "" && Utf8Len(attempt.id) <= 128 && attempt.timestamp <= MAX_I64
  }

  /** The checks made before the store is read. */
  function Malformed(call: Call): Option<SaveError> {
    if Utf8Len(call.conversation) > 128 || call.conversation == "" then Some(InvalidConversation)
    else if Utf8Len(call.text) > MAX_MESSAGE_BYTES then Some(DraftTooLarge)
    else if !PendingOk(call) then Some(InvalidPending)
    else if call.expected + 1 > MAX_I64 then Some(VersionExhausted)
    else None
  }

  ghost predicate Conversations(rows: seq<Row>) {
    forall j, k | 0 <= j < k < |rows| :: rows[j].conversation != rows[k].conversation
  }

  ghost predicate Fits(bodyLen: Draft -> nat, rows: seq<Row>) {
    |rows| <= MAX_ROWS && StoreBytes(bodyLen, rows) <= MAX_STORE_BYTES
  }

  /** The current version of a conversation, zero before its first draft. */
  ghost function Version(rows: seq<Row>, conversation: string): nat {
    var at := Find(rows, conversation);
    if at.Some? then rows[at.value].draft.version else 0
  }

  type History = map<string, seq<Draft>>

  ghost function Past(committed: History, conversation: string): seq<Draft> {
    if conversation in committed then committed[conversation] else []
  }

  ghost predicate Numbered(drafts: seq<Draft>) {
    forall i | 0 <= i < |drafts| :: drafts[i].version == i + 1
  }

  /** The committed drafts of a conversation are versions 1, 2, 3, ..., and its row is the last one. */
  ghost predicate HistoryOk(rows: seq<Row>, committed: History) {
    forall c: string ::
      && Numbered(Past(committed, c))
      && (if Past(committed, c) == [] then Find(rows, c).None?
          else Find(rows, c).Some? && rows[Find(rows, c).value].draft == Past(committed, c)[|Past(committed, c)| - 1])
  }

  class Store {
    const bodyLen: Draft -> nat
    var rows: seq<Row>
    /** Every draft ever committed, per conversation. */
    ghost var committed: History

    ghost predicate Valid()
      reads this
    {
      Conversations(rows) && Fits(bodyLen, rows) && HistoryOk(rows, committed)
    }

    constructor (bodyLen: Draft -> nat)
      ensures Valid() && rows == [] && committed == map[]
    {
      this.bodyLen := bodyLen;
      rows, committed := [], map[];
    }

    method Load(conversation: string) returns (draft: Draft)
      requires Valid()
      ensures draft.version == |Past(committed, conversation)|
      ensures draft == if Past(committed, conversation) == [] then Draft(0, "", None)
                       else Past(committed, conversation)[draft.version - 1]
    {
      var at := Find(rows, conversation);
      if at.Some? { return rows[at.value].draft; }
      return Draft(0, "", None);
    }

    /**
     A call answers from the stored row when it repeats that row's own command with the same
     input, appends the next version when the editor was current, and otherwise changes nothing.
     */
    method Save(call: Call) returns (r: Result<Draft, SaveError>)
      requires Valid()
      modifies this
      ensures Valid()
      ensures r.Ok? ==> r.value == Proposed(call)
      ensures r.Err? ==> rows == old(rows) && committed == old(committed)
      ensures Repeats(old(rows), call) && Malformed(call).None? <==> r.Ok? && committed == old(committed)
      ensures Repeats(old(rows), call) ==> rows == old(rows)
      ensures r.Ok? && !Repeats(old(rows), call) ==>
                && |old(Past(committed, call.conversation))| == call.expected
                && committed == old(committed)[call.conversation := old(Past(committed, call.conversation)) + [r.value]]
                && rows == Written(old(rows), Row(call.conversation, call.request, r.value))
      ensures r.Ok? <==> Malformed(call).None? && (Repeats(old(rows), call) || Accepts(bodyLen, old(rows), call))
      ensures r == Err(StorageFull) <==>
                && Malformed(call).None? && !Reuses(old(rows), call) && Version(old(rows), call.conversation) == call.expected
                && !Fits(bodyLen, Written(old(rows), Row(call.conversation, call.request, Proposed(call))))
    {
      var refusal := Malformed(call);
      if refusal.Some? { return Err(refusal.value); }
      var next := Proposed(call);
      var prior := Find(rows, call.conversation);
      if prior.Some? {
        var saved := rows[prior.value];
        if saved.command == call.request {
          if saved.draft != next { return Err(CommandReused); }
          return Ok(next);
        }
        if saved.draft.version != call.expected { return Err(ChangedElsewhere); }
      } else if call.expected != 0 {
        return Err(VersionMissing);
      }
      if prior.None? && |rows| >= MAX_ROWS { return Err(StorageFull); }
      var previous := if prior.Some? then bodyLen(rows[prior.value].draft) else 0;
      WrittenKeeps(bodyLen, rows, Row(call.conversation, call.request, next));
      if StoreBytes(bodyLen, rows) - previous + bodyLen(next) > MAX_STORE_BYTES { return Err(StorageFull); }
      CommitKeepsHistory(rows, committed, Row(call.conversation, call.request, next));
      rows := Written(rows, Row(call.conversation, call.request, next));
      committed := committed[call.conversation := Past(committed, call.conversation) + [next]];
      return Ok(next);
    }
  }

  /** The call is the one whose draft is stored now. */
  predicate Repeats(rows: seq<Row>, call: Call) {
    var at := Find(rows, call.conversation);
    at.Some? && rows[at.value].command == call.request && rows[at.value].draft == Proposed(call)
  }

  /** The command is the stored one already. */
  predicate Reuses(rows: seq<Row>, call: Call) {
    var at := Find(rows, call.conversation);
    at.Some? && rows[at.value].command == call.request
  }

  /** A current editor with a fresh command, whose draft fits next to the others. */
  ghost predicate Accepts(bodyLen: Draft -> nat, rows: seq<Row>, call: Call) {
    && !Reuses(rows, call) && Version(rows, call.conversation) == call.expected
    && Fits(bodyLen, Written(rows, Row(call.conversation, call.request, Proposed(call))))
  }

  function Written(rows: seq<Row>, row: Row): seq<Row> {
    var at := Find(rows, row.conversation);
    if at.Some? then rows[at.value := row] else rows + [row]
  }

  lemma {:induction false} StoreBytesUpdate(bodyLen: Draft -> nat, rows: seq<Row>, k: nat, row: Row)
    requires k < |rows|
    ensures StoreBytes(bodyLen, rows[k := row])
            == StoreBytes(bodyLen, rows) - bodyLen(rows[k].draft) + bodyLen(row.draft)
  {
    var last := |rows| - 1;
    if k == last {
      assert rows[k := row][..last] == rows[..last];
    } else {
      assert rows[k := row][..last] == rows[..last][k := row];
      StoreBytesUpdate(bodyLen, rows[..last], k, row);
    }
  }

  lemma WrittenKeeps(bodyLen: Draft -> nat, rows: seq<Row>, row: Row)
    requires Conversations(rows)
    ensures Conversations(Written(rows, row))
    ensures Find(Written(rows, row), row.conversation).Some?
    ensures forall c: string | c != row.conversation :: Find(Written(rows, row), c).Some? == Find(rows, c).Some?
    ensures |Written(rows, row)| == if Find(rows, row.conversation).Some? then |rows| else |rows| + 1
    ensures var at := Find(rows, row.conversation);
            StoreBytes(bodyLen, Written(rows, row)) == StoreBytes(bodyLen, rows) + bodyLen(row.draft)
              - (if at.Some? then bodyLen(rows[at.value].draft) else 0)
  {
    var at := Find(rows, row.conversation);
    var next := Written(rows, row);
    if at.Some? {
      StoreBytesUpdate(bodyLen, rows, at.value, row);
      assert next[at.value].conversation == row.conversation;
    } else {
      assert next[..|rows|] == rows;
      assert next[|rows|].conversation == row.conversation;
    }
    forall c: string | c != row.conversation ensures Find(next, c).Some? == Find(rows, c).Some? {
      if Find(rows, c).Some? { assert next[Find(rows, c).value].conversation == c; }
      if Find(next, c).Some? { assert rows[Find(next, c).value].conversation == c; }
    }
  }

  lemma FindsTheOnly(rows: seq<Row>, k: nat)
    requires Conversations(rows) && k < |rows|
    ensures Find(rows, rows[k].conversation) == Some(k)
  {
  }

  lemma WrittenRow(rows: seq<Row>, row: Row, c: string)
    requires Conversations(rows)
    ensures var at := Find(Written(rows, row), c);
            if c == row.conversation then at.Some? && Written(rows, row)[at.value] == row
            else at.Some? == Find(rows, c).Some? && (at.Some? ==> Written(rows, row)[at.value] == rows[Find(rows, c).value])
  {
    var next := Written(rows, row);
    WrittenKeeps(_ => 0, rows, row);
    if c == row.conversation {
      FindsTheOnly(next, if Find(rows, c).Some? then Find(rows, c).value else |rows|);
    } else if Find(rows, c).Some? {
      FindsTheOnly(next, Find(rows, c).value);
    }
  }

  lemma CommitKeepsHistory(rows: seq<Row>, committed: History, row: Row)
    requires Conversations(rows) && HistoryOk(rows, committed)
    requires row.draft.version == |Past(committed, row.conversation)| + 1
    ensures HistoryOk(Written(rows, row), committed[row.conversation := Past(committed, row.conversation) + [row.draft]])
  {
    var later := committed[row.conversation := Past(committed, row.conversation) + [row.draft]];
    forall c: string ensures Numbered(Past(later, c)) {
      assert Numbered(Past(committed, c));
    }
    forall c: string { WrittenRow(rows, row, c); }
  }

  /** Sending an acknowledged call again finds its own row, however often it is sent. */
  lemma AnsweredCallRepeats(rows: seq<Row>, call: Call)
    requires Conversations(rows)
    ensures Repeats(Written(rows, Row(call.conversation, call.request, Proposed(call))), call)
  {
    WrittenRow(rows, Row(call.conversation, call.request, Proposed(call)), call.conversation);
  }

  /** Once its conversation has moved on, a call that was committed neither repeats nor is current: it can only fail. */
  lemma OvertakenCallFails(rows: seq<Row>, committed: History, call: Call)
    requires HistoryOk(rows, committed)
    requires Proposed(call) in Past(committed, call.conversation)
    requires Find(rows, call.conversation).Some? && rows[Find(rows, call.conversation).value].draft != Proposed(call)
    ensures !Repeats(rows, call) && Version(rows, call.conversation) != call.expected
  {
    var past := Past(committed, call.conversation);
    assert Numbered(past);
    var i :| 0 <= i < |past| && past[i] == Proposed(call);
    assert past[|past| - 1].version == |past|;
  }
}
