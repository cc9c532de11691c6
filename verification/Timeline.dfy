/**
 Model of ui/packages/app/lib/streaming/zombie-stream-frames.ts: the pure fold of live frames over
 the rows of a timeline, and the merge of server-rendered rows.
 */
module Timeline {
  import opened Wrappers
  import opened Sequences
  import opened Sorting

  datatype Role = User | Assistant | System

  /** `custom` is the request text kept on backfilled rows. Times are integers. */
  datatype Row = Row(id: string, role: Role, actor: string, text: string, createdAt: int, status: string,
                     custom: Option<string>)

  datatype BackfillRow = BackfillRow(id: string, actor: string, response: Option<string>, createdAt: int,
                                     status: string, request: string)

  /** A frame and what the clock says when it arrives. Kinds that are not rendered are one case. */
  datatype Frame =
    | EventReceived(id: string, actor: string, now: int)
    | Chunk(id: string, text: string, now: int)
    | EventComplete(id: string, status: Option<string>)
    | NotRendered(id: string)

  function ActorToRole(actor: string): Role {
    if "steer:" <= actor then User else if actor == "agent" then Assistant else System
  }

  predicate HasId(rows: seq<Row>, id: string) {
    exists i :: 0 <= i < |rows| && rows[i].id == id
  }

  /**
   `prev.map(e => e === existing ? change(e) : e)` where `existing` is the first row of the id; the
   rows of a list are distinct objects.
   */
  function UpdateFirst(rows: seq<Row>, id: string, change: Row -> Row): (r: seq<Row>)
    ensures |r| == |rows|
  {
    if rows == [] then []
    else if rows[0].id == id then [change(rows[0])] + rows[1..]
    else [rows[0]] + UpdateFirst(rows[1..], id, change)
  }

  function AddText(text: string): Row -> Row {
    (r: Row) => r.(role := if r.role == User then User else Assistant, text := r.text + text)
  }

  function SetStatus(status: string): Row -> Row {
    (r: Row) => r.(status := status)
  }

  function ApplyLiveFrame(prev: seq<Row>, f: Frame): seq<Row> {
    match f
    case EventReceived(id, actor, now) =>
      if HasId(prev, id) then prev else prev + [Row(id, ActorToRole(actor), actor, "", now, "received", None)]
    case Chunk(id, text, now) =>
      if HasId(prev, id) then UpdateFirst(prev, id, AddText(text))
      else prev + [Row(id, Assistant, "agent", text, now, "received", None)]
    case EventComplete(id, status) =>
      UpdateFirst(prev, id, SetStatus(if status.Some? then status.value else "processed"))
    case NotRendered(_) => prev
  }

  function Fold(rows: seq<Row>, frames: seq<Frame>): seq<Row>
    decreases |frames|
  {
    if frames == [] then rows else Fold(ApplyLiveFrame(rows, frames[0]), frames[1..])
  }

  // ---------------------------------------------------------------- non-interference

  function RowsOf(rows: seq<Row>, id: string): seq<Row> {
    if rows == [] then []
    else if rows[0].id == id then [rows[0]] + RowsOf(rows[1..], id)
    else RowsOf(rows[1..], id)
  }

  function FramesOf(frames: seq<Frame>, id: string): seq<Frame> {
    if frames == [] then []
    else if frames[0].id == id then [frames[0]] + FramesOf(frames[1..], id)
    else FramesOf(frames[1..], id)
  }

  lemma RowsOfCons(x: Row, rows: seq<Row>, id: string)
    ensures RowsOf([x] + rows, id) == if x.id == id then [x] + RowsOf(rows, id) else RowsOf(rows, id)
  {
    assert ([x] + rows)[1..] == rows;
  }

  lemma UpdateCons(x: Row, rows: seq<Row>, id: string, change: Row -> Row)
    ensures UpdateFirst([x] + rows, id, change)
         == if x.id == id then [change(x)] + rows else [x] + UpdateFirst(rows, id, change)
  {
    assert ([x] + rows)[1..] == rows;
  }

  lemma {:induction false} RowsOfSnoc(rows: seq<Row>, x: Row, id: string)
    ensures RowsOf(rows + [x], id) == if x.id == id then RowsOf(rows, id) + [x] else RowsOf(rows, id)
  {
    if rows == [] {
      assert rows + [x] == [x];
      assert [x][1..] == [];
    } else {
      RowsOfSnoc(rows[1..], x, id);
      assert rows + [x] == [rows[0]] + (rows[1..] + [x]);
      RowsOfCons(rows[0], rows[1..] + [x], id);
    }
  }

  lemma HasIdCons(rows: seq<Row>, id: string)
    requires rows != []
    ensures HasId(rows, id) <==> rows[0].id == id || HasId(rows[1..], id)
  {
    if HasId(rows[1..], id) {
      var i :| 0 <= i < |rows[1..]| && rows[1..][i].id == id;
      assert rows[i + 1].id == id;
    }
    if HasId(rows, id) {
      var i :| 0 <= i < |rows| && rows[i].id == id;
      assert i > 0 ==> rows[1..][i - 1].id == id;
    }
  }

  lemma {:induction false} RowsOfHasId(rows: seq<Row>, id: string)
    ensures HasId(rows, id) <==> RowsOf(rows, id) != []
    ensures forall i :: 0 <= i < |RowsOf(rows, id)| ==> RowsOf(rows, id)[i].id == id
  {
    if rows != [] {
      RowsOfHasId(rows[1..], id);
      HasIdCons(rows, id);
    }
  }

  lemma OwnRowsHaveId(rows: seq<Row>, id: string)
    ensures HasId(RowsOf(rows, id), id) <==> HasId(rows, id)
  {
    RowsOfHasId(rows, id);
    if RowsOf(rows, id) != [] {
      assert RowsOf(rows, id)[0].id == id;
    }
  }

  lemma {:induction false} UpdateOwnRow(rows: seq<Row>, id: string, change: Row -> Row)
    requires forall r :: change(r).id == r.id
    ensures RowsOf(UpdateFirst(rows, id, change), id) == UpdateFirst(RowsOf(rows, id), id, change)
  {
    if rows != [] {
      var x, rest := rows[0], rows[1..];
      if x.id == id {
        RowsOfCons(change(x), rest, id);
        UpdateCons(x, RowsOf(rest, id), id, change);
      } else {
        UpdateOwnRow(rest, id, change);
        RowsOfCons(x, UpdateFirst(rest, id, change), id);
      }
    }
  }

  lemma {:induction false} UpdateOtherRow(rows: seq<Row>, other: string, change: Row -> Row, id: string)
    requires forall r :: change(r).id == r.id
    requires other != id
    ensures RowsOf(UpdateFirst(rows, other, change), id) == RowsOf(rows, id)
  {
    if rows != [] {
      var x, rest := rows[0], rows[1..];
      if x.id == other {
        RowsOfCons(change(x), rest, id);
      } else {
        UpdateOtherRow(rest, other, change, id);
        RowsOfCons(x, UpdateFirst(rest, other, change), id);
      }
    }
  }

  lemma OwnFrame(rows: seq<Row>, f: Frame)
    ensures RowsOf(ApplyLiveFrame(rows, f), f.id) == ApplyLiveFrame(RowsOf(rows, f.id), f)
  {
    OwnRowsHaveId(rows, f.id);
    match f {
      case EventReceived(id, actor, now) =>
        RowsOfSnoc(rows, Row(id, ActorToRole(actor), actor, "", now, "received", None), id);
        RowsOfIsIdempotent(rows, id);
      case Chunk(id, text, now) =>
        RowsOfSnoc(rows, Row(id, Assistant, "agent", text, now, "received", None), id);
        UpdateOwnRow(rows, id, AddText(text));
      case EventComplete(id, status) =>
        UpdateOwnRow(rows, id, SetStatus(if status.Some? then status.value else "processed"));
      case NotRendered(_) =>
        RowsOfIsIdempotent(rows, f.id);
    }
  }

  lemma {:induction false} RowsOfIsIdempotent(rows: seq<Row>, id: string)
    ensures RowsOf(RowsOf(rows, id), id) == RowsOf(rows, id)
  {
    if rows != [] {
      RowsOfIsIdempotent(rows[1..], id);
      RowsOfCons(rows[0], RowsOf(rows[1..], id), id);
    }
  }

  lemma OtherFrame(rows: seq<Row>, f: Frame, id: string)
    requires f.id != id
    ensures RowsOf(ApplyLiveFrame(rows, f), id) == RowsOf(rows, id)
  {
    match f {
      case EventReceived(_, actor, now) =>
        RowsOfSnoc(rows, Row(f.id, ActorToRole(actor), actor, "", now, "received", None), id);
      case Chunk(_, text, now) =>
        RowsOfSnoc(rows, Row(f.id, Assistant, "agent", text, now, "received", None), id);
        UpdateOtherRow(rows, f.id, AddText(text), id);
      case EventComplete(_, status) =>
        UpdateOtherRow(rows, f.id, SetStatus(if status.Some? then status.value else "processed"), id);
      case NotRendered(_) =>
    }
  }

  /** The rows of one event after any interleaving depend on that event's rows and frames alone. */
  lemma {:induction false} NonInterference(rows: seq<Row>, frames: seq<Frame>, id: string)
    ensures RowsOf(Fold(rows, frames), id) == Fold(RowsOf(rows, id), FramesOf(frames, id))
    decreases |frames|
  {
    if frames != [] {
      var f := frames[0];
      NonInterference(ApplyLiveFrame(rows, f), frames[1..], id);
      if f.id == id {
        OwnFrame(rows, f);
        assert ([f] + FramesOf(frames[1..], id))[1..] == FramesOf(frames[1..], id);
      } else {
        OtherFrame(rows, f, id);
      }
    }
  }

  /** Two interleavings of the same frames per event give every event the same rows. */
  lemma InterleavingIsImmaterial(rows: seq<Row>, one: seq<Frame>, two: seq<Frame>, id: string)
    requires FramesOf(one, id) == FramesOf(two, id)
    ensures RowsOf(Fold(rows, one), id) == RowsOf(Fold(rows, two), id)
  {
    NonInterference(rows, one, id);
    NonInterference(rows, two, id);
  }

  // ---------------------------------------------------------------- the text of an event

  /** The text shown for an event: that of its first row, "" if it has none. */
  function TextOf(rows: seq<Row>, id: string): string {
    var own := RowsOf(rows, id);
    if own == [] then "" else own[0].text
  }

  /** The text a frame adds to an event. */
  function OwnText(f: Frame, id: string): string {
    if f.Chunk? && f.id == id then f.text else ""
  }

  function ChunkTexts(frames: seq<Frame>, id: string): string {
    if frames == [] then "" else OwnText(frames[0], id) + ChunkTexts(frames[1..], id)
  }

  lemma OneFrameText(rows: seq<Row>, f: Frame, id: string)
    ensures TextOf(ApplyLiveFrame(rows, f), id) == TextOf(rows, id) + OwnText(f, id)
  {
    if f.id == id {
      OwnFrame(rows, f);
      RowsOfHasId(rows, id);
      var own := RowsOf(rows, id);
      OwnRowsHaveId(rows, id);
      if own != [] {
        assert own[0].id == id;
      }
      assert TextOf(rows, id) + "" == TextOf(rows, id);
    } else {
      OtherFrame(rows, f, id);
      assert TextOf(rows, id) + "" == TextOf(rows, id);
    }
  }

  /** Starting text, then every chunk of the event in order, whatever else arrived in between. */
  lemma {:induction false} TextAccumulates(rows: seq<Row>, frames: seq<Frame>, id: string)
    ensures TextOf(Fold(rows, frames), id) == TextOf(rows, id) + ChunkTexts(frames, id)
    decreases |frames|
  {
    if frames == [] {
      assert TextOf(rows, id) + "" == TextOf(rows, id);
    } else {
      var f := frames[0];
      TextAccumulates(ApplyLiveFrame(rows, f), frames[1..], id);
      OneFrameText(rows, f, id);
      Associative(TextOf(rows, id), OwnText(f, id), ChunkTexts(frames[1..], id));
    }
  }

  // ---------------------------------------------------------------- the status of an event

  /** The status an event that had `status` is left with: that of its last completion. */
  function StatusAfter(status: string, frames: seq<Frame>, id: string): string {
    if frames == [] then status
    else
      var last := frames[|frames| - 1];
      if last.EventComplete? && last.id == id then if last.status.Some? then last.status.value else "processed"
      else StatusAfter(status, frames[..|frames| - 1], id)
  }

  lemma {:induction false} StatusAfterFirst(status: string, frames: seq<Frame>, id: string)
    requires frames != []
    ensures StatusAfter(status, frames, id) == StatusAfter(StatusAfter(status, [frames[0]], id), frames[1..], id)
    decreases |frames|
  {
    var n := |frames| - 1;
    assert [frames[0]][..0] == [];
    if n == 0 {
      assert frames == [frames[0]];
    } else {
      StatusAfterFirst(status, frames[..n], id);
      assert frames[1..][..n - 1] == frames[..n][1..];
    }
  }

  lemma OneFrameStatus(rows: seq<Row>, f: Frame, id: string)
    requires HasId(rows, id)
    ensures var own, next := RowsOf(rows, id), RowsOf(ApplyLiveFrame(rows, f), id);
            own != [] && next != [] && next[0].status == StatusAfter(own[0].status, [f], id)
  {
    RowsOfHasId(rows, id);
    var own := RowsOf(rows, id);
    assert own[0].id == id;
    assert [f][..0] == [];
    if f.id == id {
      OwnFrame(rows, f);
      OwnRowsHaveId(rows, id);
    } else {
      OtherFrame(rows, f, id);
    }
  }

  /** An event on the timeline shows the status of its last completion, whatever else arrived. */
  lemma {:induction false} StatusIsLast(rows: seq<Row>, frames: seq<Frame>, id: string)
    requires HasId(rows, id)
    ensures var own, next := RowsOf(rows, id), RowsOf(Fold(rows, frames), id);
            own != [] && next != [] && next[0].status == StatusAfter(own[0].status, frames, id)
    decreases |frames|
  {
    RowsOfHasId(rows, id);
    if frames != [] {
      var f := frames[0];
      OneFrameStatus(rows, f, id);
      RowsOfHasId(ApplyLiveFrame(rows, f), id);
      StatusIsLast(ApplyLiveFrame(rows, f), frames[1..], id);
      StatusAfterFirst(RowsOf(rows, id)[0].status, frames, id);
    }
  }

  // ---------------------------------------------------------------- rows are kept and ids stay distinct

  predicate DistinctIds(rows: seq<Row>) {
    forall i, j :: 0 <= i < j < |rows| ==> rows[i].id != rows[j].id
  }

  /** A row later in its life: same actor and time, a user row stays one, the text only grows. */
  predicate Continues(before: Row, after: Row) {
    && after.actor == before.actor && after.createdAt == before.createdAt && after.custom == before.custom
    && (before.role == User ==> after.role == User)
    && before.text <= after.text
  }

  /** Every row of `prev` is still at its place in `next`, with its id. */
  predicate Grows(prev: seq<Row>, next: seq<Row>) {
    && |prev| <= |next|
    && forall i :: 0 <= i < |prev| ==> next[i].id == prev[i].id && Continues(prev[i], next[i])
  }

  lemma {:induction false} UpdateGrows(rows: seq<Row>, id: string, change: Row -> Row)
    requires forall r :: change(r).id == r.id && Continues(r, change(r))
    ensures Grows(rows, UpdateFirst(rows, id, change))
  {
    if rows != [] && rows[0].id != id {
      UpdateGrows(rows[1..], id, change);
      var rest := UpdateFirst(rows[1..], id, change);
      forall i | 0 <= i < |rows|
        ensures UpdateFirst(rows, id, change)[i].id == rows[i].id
        ensures Continues(rows[i], UpdateFirst(rows, id, change)[i])
      {
        if i > 0 {
          assert rest[i - 1].id == rows[1..][i - 1].id && Continues(rows[1..][i - 1], rest[i - 1]);
        }
      }
    }
  }

  /** A live frame drops no row, reorders none, and never makes two rows share an id. */
  lemma FrameGrows(rows: seq<Row>, f: Frame)
    ensures Grows(rows, ApplyLiveFrame(rows, f))
    ensures DistinctIds(rows) ==> DistinctIds(ApplyLiveFrame(rows, f))
    ensures |ApplyLiveFrame(rows, f)| <= |rows| + 1
    ensures forall i :: |rows| <= i < |ApplyLiveFrame(rows, f)| ==> ApplyLiveFrame(rows, f)[i].id == f.id
  {
    match f {
      case EventReceived(id, actor, now) =>
      case Chunk(id, text, now) =>
        UpdateGrows(rows, id, AddText(text));
      case EventComplete(id, status) =>
        UpdateGrows(rows, id, SetStatus(if status.Some? then status.value else "processed"));
      case NotRendered(_) =>
    }
  }

  // ---------------------------------------------------------------- what a frame shows

  /** Messages that somebody steers with are the user's, the agent's are the assistant's, all others the system's. */
  lemma RoleIs(actor: string)
    ensures ActorToRole(actor) == User <==> |actor| >= 6 && actor[..6] == "steer:"
    ensures ActorToRole(actor) == Assistant <==> actor == "agent"
  {
    if |actor| >= 6 && actor[..6] == "steer:" {
      assert actor[0] == "steer:"[0];
      assert actor != "agent";
    }
  }

  /** Row `k` is the first of the id. */
  predicate IsFirst(rows: seq<Row>, id: string, k: nat) {
    k < |rows| && rows[k].id == id && forall i :: 0 <= i < k ==> rows[i].id != id
  }

  lemma {:induction false} UpdateFirstIs(rows: seq<Row>, id: string, change: Row -> Row, k: nat)
    requires IsFirst(rows, id, k)
    ensures UpdateFirst(rows, id, change) == rows[k := change(rows[k])]
  {
    if k > 0 {
      assert rows[0].id != id;
      UpdateFirstIs(rows[1..], id, change, k - 1);
      assert rows[k := change(rows[k])] == [rows[0]] + rows[1..][k - 1 := change(rows[k])];
    }
  }

  lemma {:induction false} UpdateOfNone(rows: seq<Row>, id: string, change: Row -> Row)
    requires !HasId(rows, id)
    ensures UpdateFirst(rows, id, change) == rows
  {
    if rows != [] {
      HasIdCons(rows, id);
      UpdateOfNone(rows[1..], id, change);
    }
  }

  /** The first frame of an event adds an empty row for it at the end; a repeated announcement changes nothing. */
  lemma ReceivedShows(rows: seq<Row>, f: Frame)
    requires f.EventReceived?
    ensures HasId(rows, f.id) ==> ApplyLiveFrame(rows, f) == rows
    ensures !HasId(rows, f.id) ==>
      var next := ApplyLiveFrame(rows, f);
      && |next| == |rows| + 1 && next[..|rows|] == rows
      && var row := next[|rows|];
         && row.id == f.id && row.actor == f.actor && row.text == "" && row.createdAt == f.now
         && row.status == "received" && row.custom == None
         && (row.role == User <==> |f.actor| >= 6 && f.actor[..6] == "steer:")
         && (row.role == Assistant <==> f.actor == "agent")
  {
    RoleIs(f.actor);
  }

  /** A chunk of an event without a row adds one, the agent's, with that text. */
  lemma FirstChunkShows(rows: seq<Row>, f: Frame)
    requires f.Chunk? && !HasId(rows, f.id)
    ensures var next := ApplyLiveFrame(rows, f);
            && |next| == |rows| + 1 && next[..|rows|] == rows
            && var row := next[|rows|];
               && row.id == f.id && row.actor == "agent" && row.text == f.text && row.createdAt == f.now
               && row.role == Assistant && row.status == "received" && row.custom == None
  {
  }

  /** A later one adds its text to the first row of the event, which becomes the assistant's unless it is the user's. */
  lemma ChunkChanges(rows: seq<Row>, f: Frame, k: nat)
    requires f.Chunk? && IsFirst(rows, f.id, k)
    ensures ApplyLiveFrame(rows, f)
         == rows[k := rows[k].(text := rows[k].text + f.text, role := if rows[k].role == User then User else Assistant)]
  {
    assert HasId(rows, f.id);
    UpdateFirstIs(rows, f.id, AddText(f.text), k);
  }

  /** A completion changes the status of the first row of its event, "processed" if it names none, and adds no row. */
  lemma CompleteChanges(rows: seq<Row>, f: Frame)
    requires f.EventComplete?
    ensures !HasId(rows, f.id) ==> ApplyLiveFrame(rows, f) == rows
    ensures forall k: nat :: IsFirst(rows, f.id, k) ==>
              ApplyLiveFrame(rows, f)
              == rows[k := rows[k].(status := if f.status == None then "processed" else f.status.value)]
  {
    var change := SetStatus(if f.status.Some? then f.status.value else "processed");
    if !HasId(rows, f.id) {
      UpdateOfNone(rows, f.id, change);
    }
    forall k: nat | IsFirst(rows, f.id, k) ensures UpdateFirst(rows, f.id, change) == rows[k := change(rows[k])] {
      UpdateFirstIs(rows, f.id, change, k);
    }
  }

  lemma {:induction false} FirstExists(rows: seq<Row>, id: string) returns (k: nat)
    requires HasId(rows, id)
    ensures IsFirst(rows, id, k)
  {
    if rows[0].id == id {
      k := 0;
    } else {
      HasIdCons(rows, id);
      k := FirstExists(rows[1..], id);
      k := k + 1;
      assert forall i :: 0 < i < k ==> rows[i] == rows[1..][i - 1];
    }
  }

  /** Rows of other ids stay as they are. */
  lemma OtherRowsStay(rows: seq<Row>, f: Frame, k: nat)
    requires k < |rows| && rows[k].id != f.id
    ensures k < |ApplyLiveFrame(rows, f)| && ApplyLiveFrame(rows, f)[k] == rows[k]
  {
    if HasId(rows, f.id) {
      var first := FirstExists(rows, f.id);
      if f.Chunk? {
        ChunkChanges(rows, f, first);
      } else if f.EventComplete? {
        CompleteChanges(rows, f);
      }
    } else if f.EventComplete? {
      CompleteChanges(rows, f);
    }
  }

  // ---------------------------------------------------------------- backfill

  function RowToEvent(r: BackfillRow): Row {
    Row(r.id, ActorToRole(r.actor), r.actor, if r.response.Some? then r.response.value else "", r.createdAt,
        r.status, Some(r.request))
  }

  /** The rows whose id `prev` does not have, as events. */
  function Fresh(prev: seq<Row>, rows: seq<BackfillRow>): seq<Row> {
    if rows == [] then []
    else (if HasId(prev, rows[0].id) then [] else [RowToEvent(rows[0])]) + Fresh(prev, rows[1..])
  }

  function CreatedAt(): Row -> int {
    (r: Row) => r.createdAt
  }

  function MergeBackfill(prev: seq<Row>, rows: seq<BackfillRow>): seq<Row> {
    StableSort(CreatedAt(), Fresh(prev, rows) + prev)
  }

  lemma {:induction false} FreshAppend(prev: seq<Row>, a: seq<BackfillRow>, b: seq<BackfillRow>)
    ensures Fresh(prev, a + b) == Fresh(prev, a) + Fresh(prev, b)
    decreases |a|
  {
    if a == [] {
      assert a + b == b;
    } else {
      assert (a + b)[1..] == a[1..] + b;
      FreshAppend(prev, a[1..], b);
      var head := if HasId(prev, a[0].id) then [] else [RowToEvent(a[0])];
      Associative(head, Fresh(prev, a[1..]), Fresh(prev, b));
    }
  }

  /** A server-rendered row that is not there yet shows the response, if there is one, and keeps the request. */
  lemma FreshShows(prev: seq<Row>, r: BackfillRow)
    ensures HasId(prev, r.id) ==> Fresh(prev, [r]) == []
    ensures !HasId(prev, r.id) ==>
      && |Fresh(prev, [r])| == 1
      && var row := Fresh(prev, [r])[0];
         && row.id == r.id && row.actor == r.actor && row.createdAt == r.createdAt && row.status == r.status
         && row.text == (if r.response == None then "" else r.response.value) && row.custom == Some(r.request)
         && (row.role == User <==> |r.actor| >= 6 && r.actor[..6] == "steer:")
         && (row.role == Assistant <==> r.actor == "agent")
  {
    RoleIs(r.actor);
    assert [r][1..] == [];
  }

  lemma {:induction false} AllSeen(prev: seq<Row>, rows: seq<BackfillRow>)
    requires forall i :: 0 <= i < |rows| ==> HasId(prev, rows[i].id)
    ensures Fresh(prev, rows) == []
  {
    if rows != [] {
      assert HasId(prev, rows[0].id);
      AllSeen(prev, rows[1..]);
    }
  }

  lemma {:induction false} FreshCovers(prev: seq<Row>, rows: seq<BackfillRow>, k: nat)
    requires k < |rows|
    ensures HasId(Fresh(prev, rows) + prev, rows[k].id)
  {
    if k == 0 {
      if HasId(prev, rows[0].id) {
        var i :| 0 <= i < |prev| && prev[i].id == rows[0].id;
        assert (Fresh(prev, rows) + prev)[|Fresh(prev, rows)| + i].id == rows[0].id;
      } else {
        assert (Fresh(prev, rows) + prev)[0].id == rows[0].id;
      }
    } else {
      FreshCovers(prev, rows[1..], k - 1);
      var less, all := Fresh(prev, rows[1..]) + prev, Fresh(prev, rows) + prev;
      var i :| 0 <= i < |less| && less[i].id == rows[k].id;
      assert all[i + |all| - |less|] == less[i];
    }
  }

  lemma HasIdOfPermutation(a: seq<Row>, b: seq<Row>, id: string)
    requires multiset(a) == multiset(b) && HasId(a, id)
    ensures HasId(b, id)
  {
    var i :| 0 <= i < |a| && a[i].id == id;
    assert a[i] in multiset(b);
  }

  /** Of one time, the fresh rows come first and each kind keeps its order. */
  lemma MergeBreaksTies(prev: seq<Row>, rows: seq<BackfillRow>, time: int)
    ensures WithKey(CreatedAt(), time, MergeBackfill(prev, rows))
         == WithKey(CreatedAt(), time, Fresh(prev, rows)) + WithKey(CreatedAt(), time, prev)
  {
    SortIsStable(CreatedAt(), Fresh(prev, rows) + prev);
    WithKeyAppend(CreatedAt(), time, Fresh(prev, rows), prev);
  }

  /** Oldest first, a permutation of the fresh rows and the old, and merging again changes nothing. */
  lemma MergeIsSortedAndIdempotent(prev: seq<Row>, rows: seq<BackfillRow>)
    ensures var merged := MergeBackfill(prev, rows);
            && (forall i, j :: 0 <= i < j < |merged| ==> merged[i].createdAt <= merged[j].createdAt)
            && multiset(merged) == multiset(Fresh(prev, rows) + prev)
            && MergeBackfill(merged, rows) == merged
  {
    var merged := MergeBackfill(prev, rows);
    SortIsStable(CreatedAt(), Fresh(prev, rows) + prev);
    assert forall i :: 0 <= i < |merged| ==> CreatedAt()(merged[i]) == merged[i].createdAt;
    forall k | 0 <= k < |rows| ensures HasId(merged, rows[k].id) {
      FreshCovers(prev, rows, k);
      HasIdOfPermutation(Fresh(prev, rows) + prev, merged, rows[k].id);
    }
    AllSeen(merged, rows);
    assert [] + merged == merged;
    SortOfSorted(CreatedAt(), merged);
  }
}
