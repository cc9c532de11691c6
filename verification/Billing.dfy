/**
 Model of groupRowsByEvent in agentsfleet/src/commands/billing.ts: charge rows, up to one "receive" and
 one "stage" row an event, are combined into one summary an event, newest first. Amounts are integers.
 */
module Billing {
  import opened Wrappers
  import opened Sequences
  import opened Sorting

  type Key = Option<string>

  datatype ChargeRow = ChargeRow(eventId: Key, posture: Option<string>, model: Option<string>,
                                 recordedAt: Option<int>, chargeType: Option<string>, deducted: Option<int>,
                                 tokensIn: Option<int>, tokensOut: Option<int>)

  datatype EventSummary = EventSummary(eventId: Key, posture: Option<string>, model: Option<string>,
                                       recordedAt: Option<int>, receive: int, stage: int, tokensIn: Option<int>,
                                       tokensOut: Option<int>, total: int)

  const RECEIVE := "receive"
  const STAGE := "stage"

  function NewSummary(r: ChargeRow): EventSummary {
    EventSummary(r.eventId, r.posture, r.model, r.recordedAt, 0, 0, None, None, 0)
  }

  function Earlier(known: Option<int>, next: Option<int>): Option<int> {
    if next.Some? && (known.None? || next.value < known.value) then next else known
  }

  /** One row added to its event's summary. */
  function Add(e: EventSummary, r: ChargeRow): EventSummary {
    var e1 := if r.chargeType == Some(RECEIVE) then e.(receive := Or(r.deducted, 0))
              else if r.chargeType == Some(STAGE) then
                e.(stage := Or(r.deducted, 0), tokensIn := r.tokensIn, tokensOut := r.tokensOut)
              else e;
    e1.(recordedAt := Earlier(e.recordedAt, r.recordedAt), total := e1.receive + e1.stage)
  }

  /** The summary of one event's rows, None if there are none. */
  function SummaryOf(rows: seq<ChargeRow>, id: Key): Option<EventSummary> {
    if rows == [] then None
    else
      var r, before := rows[|rows| - 1], SummaryOf(rows[..|rows| - 1], id);
      if r.eventId != id then before
      else Some(Add(if before.Some? then before.value else NewSummary(r), r))
  }

  /** The events in order of first appearance. */
  function Order(rows: seq<ChargeRow>): seq<Key> {
    if rows == [] then []
    else
      var before := rows[..|rows| - 1];
      var id := rows[|rows| - 1].eventId;
      if SummaryOf(before, id).None? then Order(before) + [id] else Order(before)
  }

  function Newest(): EventSummary -> int {
    (e: EventSummary) => -Or(e.recordedAt, 0)
  }

  lemma {:induction false} OrderIs(rows: seq<ChargeRow>)
    ensures forall id :: id in Order(rows) <==> SummaryOf(rows, id).Some?
    ensures forall i, j :: 0 <= i < j < |Order(rows)| ==> Order(rows)[i] != Order(rows)[j]
  {
    if rows != [] {
      OrderIs(rows[..|rows| - 1]);
    }
  }

  function Summaries(rows: seq<ChargeRow>, ids: seq<Key>): (s: seq<EventSummary>)
    requires forall i :: 0 <= i < |ids| ==> SummaryOf(rows, ids[i]).Some?
  {
    if ids == [] then [] else [SummaryOf(rows, ids[0]).value] + Summaries(rows, ids[1..])
  }

  ghost predicate HasSummaries(rows: seq<ChargeRow>) {
    forall i :: 0 <= i < |Order(rows)| ==> SummaryOf(rows, Order(rows)[i]).Some?
  }

  lemma OrderHasSummaries(rows: seq<ChargeRow>)
    ensures HasSummaries(rows)
  {
    OrderIs(rows);
    forall i | 0 <= i < |Order(rows)| ensures SummaryOf(rows, Order(rows)[i]).Some? {
      assert Order(rows)[i] in Order(rows);
    }
  }

  function Grouped(rows: seq<ChargeRow>): seq<EventSummary> {
    OrderHasSummaries(rows);
    StableSort(Newest(), Summaries(rows, Order(rows)))
  }

  method GroupRowsByEvent(rows: seq<ChargeRow>) returns (events: seq<EventSummary>)
    ensures events == Grouped(rows)
  {
    var order, byEvent := CollectByEvent(rows);
    OrderHasSummaries(rows);
    var list := ValuesOf(rows, order, byEvent);
    events := StableSort(Newest(), list);
  }

  /** The loop over the rows; `order` is the insertion order of the map. */
  method CollectByEvent(rows: seq<ChargeRow>) returns (order: seq<Key>, byEvent: map<Key, EventSummary>)
    ensures order == Order(rows)
    ensures forall id :: id in byEvent <==> SummaryOf(rows, id).Some?
    ensures forall id :: id in byEvent ==> SummaryOf(rows, id) == Some(byEvent[id])
  {
    order, byEvent := [], map[];
    for i := 0 to |rows|
      invariant order == Order(rows[..i])
      invariant forall id :: id in byEvent <==> SummaryOf(rows[..i], id).Some?
      invariant forall id :: id in byEvent ==> SummaryOf(rows[..i], id) == Some(byEvent[id])
    {
      var r := rows[i];
      assert rows[..i + 1][..i] == rows[..i];
      if r.eventId !in byEvent {
        byEvent := byEvent[r.eventId := NewSummary(r)];
        order := order + [r.eventId];
      }
      var entry := byEvent[r.eventId];
      if r.chargeType == Some(RECEIVE) {
        entry := entry.(receive := Or(r.deducted, 0));
      } else if r.chargeType == Some(STAGE) {
        entry := entry.(stage := Or(r.deducted, 0), tokensIn := r.tokensIn, tokensOut := r.tokensOut);
      }
      if r.recordedAt.Some? && (entry.recordedAt.None? || r.recordedAt.value < entry.recordedAt.value) {
        entry := entry.(recordedAt := r.recordedAt);
      }
      entry := entry.(total := entry.receive + entry.stage);
      byEvent := byEvent[r.eventId := entry];
    }
    assert rows[..|rows|] == rows;
  }

  method ValuesOf(rows: seq<ChargeRow>, order: seq<Key>, byEvent: map<Key, EventSummary>)
    returns (list: seq<EventSummary>)
    requires forall i :: 0 <= i < |order| ==>
               order[i] in byEvent && SummaryOf(rows, order[i]) == Some(byEvent[order[i]])
    ensures list == Summaries(rows, order)
  {
    list := [];
    for i := 0 to |order|
      invariant Summaries(rows, order) == list + Summaries(rows, order[i..])
    {
      list := list + [byEvent[order[i]]];
    }
  }

  // ---------------------------------------------------------------- one summary an event, newest first

  lemma {:induction false} SummariesAreIndexed(rows: seq<ChargeRow>, ids: seq<Key>)
    requires forall i :: 0 <= i < |ids| ==> SummaryOf(rows, ids[i]).Some?
    ensures |Summaries(rows, ids)| == |ids|
    ensures forall i :: 0 <= i < |ids| ==> SummaryOf(rows, ids[i]) == Some(Summaries(rows, ids)[i])
  {
    if ids != [] {
      SummariesAreIndexed(rows, ids[1..]);
    }
  }

  lemma {:induction false} SummaryKeepsId(rows: seq<ChargeRow>, id: Key)
    ensures SummaryOf(rows, id).Some? ==> SummaryOf(rows, id).value.eventId == id
    ensures SummaryOf(rows, id).Some? <==> exists i :: 0 <= i < |rows| && rows[i].eventId == id
  {
    if rows != [] {
      var before := rows[..|rows| - 1];
      SummaryKeepsId(before, id);
      if i :| 0 <= i < |before| && before[i].eventId == id {
        assert rows[i].eventId == id;
      }
      if i :| 0 <= i < |rows| && rows[i].eventId == id {
        assert i < |before| ==> before[i].eventId == id;
      }
    }
  }

  /** A permutation of the summaries of the distinct events, in descending time order (no time counts as 0). */
  lemma GroupedIsOnePerEvent(rows: seq<ChargeRow>)
    ensures HasSummaries(rows) && multiset(Grouped(rows)) == multiset(Summaries(rows, Order(rows)))
    ensures |Grouped(rows)| == |Order(rows)|
    ensures forall i, j :: 0 <= i < j < |Grouped(rows)| ==>
              Or(Grouped(rows)[i].recordedAt, 0) >= Or(Grouped(rows)[j].recordedAt, 0)
    ensures forall id :: (exists i :: 0 <= i < |rows| && rows[i].eventId == id) <==> id in Order(rows)
    ensures forall i, j :: 0 <= i < j < |Order(rows)| ==> Order(rows)[i] != Order(rows)[j]
  {
    OrderHasSummaries(rows);
    OrderIs(rows);
    SortIsStable(Newest(), Summaries(rows, Order(rows)));
    SummariesAreIndexed(rows, Order(rows));
    SameSize(Grouped(rows), Summaries(rows, Order(rows)));
    forall id ensures (exists i :: 0 <= i < |rows| && rows[i].eventId == id) <==> id in Order(rows) {
      SummaryKeepsId(rows, id);
    }
    var key, out := Newest(), Grouped(rows);
    forall i, j | 0 <= i < j < |out| ensures Or(out[i].recordedAt, 0) >= Or(out[j].recordedAt, 0) {
      assert key(out[i]) <= key(out[j]);
    }
  }

  lemma SameSize(a: seq<EventSummary>, b: seq<EventSummary>)
    requires multiset(a) == multiset(b)
    ensures |a| == |b|
  {
    assert |multiset(a)| == |a| && |multiset(b)| == |b|;
  }

  /** Row `k` is the first of its event. */
  predicate FirstAt(rows: seq<ChargeRow>, id: Key, k: nat) {
    k < |rows| && rows[k].eventId == id && forall j :: 0 <= j < k ==> rows[j].eventId != id
  }

  lemma {:induction false} OrderIsByFirstRow(rows: seq<ChargeRow>, i: nat, j: nat, m: nat, n: nat)
    requires i < j < |Order(rows)| && FirstAt(rows, Order(rows)[i], m) && FirstAt(rows, Order(rows)[j], n)
    ensures m < n
    decreases |rows|
  {
    var last := |rows| - 1;
    var before := rows[..last];
    assert forall k :: 0 <= k < last ==> before[k] == rows[k];
    OrderIs(before);
    SummaryKeepsId(before, Order(rows)[i]);
    assert Order(before)[i] == Order(rows)[i] && Order(before)[i] in Order(before);
    assert FirstAt(before, Order(before)[i], m);
    if j < |Order(before)| {
      SummaryKeepsId(before, Order(rows)[j]);
      assert Order(before)[j] == Order(rows)[j] && Order(before)[j] in Order(before);
      assert FirstAt(before, Order(before)[j], n);
      OrderIsByFirstRow(before, i, j, m, n);
    } else {
      SummaryKeepsId(before, Order(rows)[j]);
      assert n == last;
    }
  }

  /** Events of one time stand in the order of their first rows. */
  lemma TiesAreByFirstRow(rows: seq<ChargeRow>, time: int)
    ensures HasSummaries(rows)
    ensures WithKey(Newest(), -time, Grouped(rows)) == WithKey(Newest(), -time, Summaries(rows, Order(rows)))
    ensures forall i, j, m: nat, n: nat ::
              0 <= i < j < |Order(rows)| && FirstAt(rows, Order(rows)[i], m) && FirstAt(rows, Order(rows)[j], n) ==>
                m < n
  {
    OrderHasSummaries(rows);
    SortIsStable(Newest(), Summaries(rows, Order(rows)));
    forall i, j, m: nat, n: nat |
        0 <= i < j < |Order(rows)| && FirstAt(rows, Order(rows)[i], m) && FirstAt(rows, Order(rows)[j], n)
      ensures m < n
    {
      OrderIsByFirstRow(rows, i, j, m, n);
    }
  }

  // ---------------------------------------------------------------- the timestamp

  /** The time of an event is the least its rows have; it has none exactly if none of them does. */
  lemma {:induction false} TimeIsLeast(rows: seq<ChargeRow>, id: Key)
    requires SummaryOf(rows, id).Some?
    ensures var t := SummaryOf(rows, id).value.recordedAt;
            && (t.Some? ==> exists i :: 0 <= i < |rows| && rows[i].eventId == id && rows[i].recordedAt == t)
            && forall i :: 0 <= i < |rows| && rows[i].eventId == id && rows[i].recordedAt.Some? ==>
                 t.Some? && t.value <= rows[i].recordedAt.value
  {
    var n := |rows| - 1;
    var r, before := rows[n], rows[..n];
    assert forall i :: 0 <= i < n ==> before[i] == rows[i];
    if SummaryOf(before, id).Some? {
      TimeIsLeast(before, id);
      var t := SummaryOf(before, id).value.recordedAt;
      if t.Some? {
        var i :| 0 <= i < |before| && before[i].eventId == id && before[i].recordedAt == t;
        assert rows[i].eventId == id && rows[i].recordedAt == t;
      }
    } else {
      SummaryKeepsId(before, id);
      assert forall i :: 0 <= i < n ==> rows[i].eventId != id by {
        forall i | 0 <= i < n ensures rows[i].eventId != id {
          assert before[i] == rows[i];
        }
      }
    }
    assert r == rows[n];
  }

  // ---------------------------------------------------------------- the other fields

  /** Posture and model are those of the event's first row. */
  lemma {:induction false} DetailsAreOfFirstRow(rows: seq<ChargeRow>, id: Key)
    requires SummaryOf(rows, id).Some?
    ensures exists i :: 0 <= i < |rows| && rows[i].eventId == id && (forall j :: 0 <= j < i ==> rows[j].eventId != id)
                        && SummaryOf(rows, id).value.posture == rows[i].posture
                        && SummaryOf(rows, id).value.model == rows[i].model
  {
    var n := |rows| - 1;
    var before := rows[..n];
    assert forall i :: 0 <= i < n ==> before[i] == rows[i];
    if SummaryOf(before, id).Some? {
      DetailsAreOfFirstRow(before, id);
      var i :| 0 <= i < n && before[i].eventId == id && (forall j :: 0 <= j < i ==> before[j].eventId != id)
               && SummaryOf(before, id).value.posture == before[i].posture
               && SummaryOf(before, id).value.model == before[i].model;
      assert rows[i].eventId == id;
    } else {
      SummaryKeepsId(before, id);
      forall j | 0 <= j < n ensures rows[j].eventId != id {
        assert before[j] == rows[j];
      }
      assert rows[n].eventId == id;
    }
  }

  /** The token counts are those of the event's last stage row, and unknown without one. */
  lemma {:induction false} TokensAreOfLastStage(rows: seq<ChargeRow>, id: Key, k: nat)
    requires SummaryOf(rows, id).Some?
    ensures && k < |rows| && SamePair(rows[k], id, "stage")
            && (forall j :: k < j < |rows| ==> !SamePair(rows[j], id, "stage")) ==>
              && SummaryOf(rows, id).value.tokensIn == rows[k].tokensIn
              && SummaryOf(rows, id).value.tokensOut == rows[k].tokensOut
    ensures (forall j :: 0 <= j < |rows| ==> !SamePair(rows[j], id, "stage")) ==>
              SummaryOf(rows, id).value.tokensIn == SummaryOf(rows, id).value.tokensOut == None
  {
    var n := |rows| - 1;
    var before := rows[..n];
    assert forall i :: 0 <= i < n ==> before[i] == rows[i];
    if SummaryOf(before, id).Some? {
      TokensAreOfLastStage(before, id, k);
    } else if k < n {
      SummaryKeepsId(before, id);
      assert before[k].eventId != id;
    }
  }

  // ---------------------------------------------------------------- conservation

  predicate IsCharge(r: ChargeRow) {
    r.chargeType == Some(RECEIVE) || r.chargeType == Some(STAGE)
  }

  function Charge(r: ChargeRow): int {
    if IsCharge(r) then Or(r.deducted, 0) else 0
  }

  /** Two charges for the same thing: the later replaces the earlier. */
  predicate SamePair(r: ChargeRow, id: Key, kind: string) {
    r.eventId == id && r.chargeType == Some(kind)
  }

  function LastCharge(rows: seq<ChargeRow>, id: Key, kind: string): int {
    if rows == [] then 0
    else if SamePair(rows[|rows| - 1], id, kind) then Or(rows[|rows| - 1].deducted, 0)
    else LastCharge(rows[..|rows| - 1], id, kind)
  }

  lemma {:induction false} AmountsAreLast(rows: seq<ChargeRow>, id: Key)
    ensures var s := SummaryOf(rows, id);
            && (s.Some? ==> && s.value.receive == LastCharge(rows, id, "receive")
                            && s.value.stage == LastCharge(rows, id, "stage")
                            && s.value.total == s.value.receive + s.value.stage)
            && (s.None? ==> LastCharge(rows, id, "receive") == 0 && LastCharge(rows, id, "stage") == 0)
  {
    if rows != [] {
      AmountsAreLast(rows[..|rows| - 1], id);
    }
  }

  function SumCharges(rows: seq<ChargeRow>): int {
    if rows == [] then 0 else SumCharges(rows[..|rows| - 1]) + Charge(rows[|rows| - 1])
  }

  predicate ReplacedBy(r: ChargeRow, later: seq<ChargeRow>) {
    IsCharge(r) && exists j :: 0 <= j < |later| && later[j].eventId == r.eventId && later[j].chargeType == r.chargeType
  }

  /** The sum of the charges a later row of the same event and type replaces. */
  function Overwritten(rows: seq<ChargeRow>): int {
    if rows == [] then 0
    else (if ReplacedBy(rows[0], rows[1..]) then Charge(rows[0]) else 0) + Overwritten(rows[1..])
  }

  lemma {:induction false} LastChargeAfter(x: ChargeRow, rest: seq<ChargeRow>, id: Key, kind: string)
    ensures LastCharge([x] + rest, id, kind)
         == if exists j :: 0 <= j < |rest| && SamePair(rest[j], id, kind) then LastCharge(rest, id, kind)
            else if SamePair(x, id, kind) then Or(x.deducted, 0) else 0
    decreases |rest|
  {
    var all := [x] + rest;
    if rest == [] {
      assert all == [x] && all[..0] == [];
    } else {
      var n := |rest| - 1;
      assert all[..|all| - 1] == [x] + rest[..n];
      if !SamePair(rest[n], id, kind) {
        LastChargeAfter(x, rest[..n], id, kind);
        if j :| 0 <= j < |rest| && SamePair(rest[j], id, kind) {
          assert SamePair(rest[..n][j], id, kind);
        }
      }
    }
  }

  function PreviousCharge(rows: seq<ChargeRow>, r: ChargeRow): int {
    if IsCharge(r) then LastCharge(rows, r.eventId, r.chargeType.value) else 0
  }

  lemma {:induction false} OverwrittenSnoc(rows: seq<ChargeRow>, r: ChargeRow)
    ensures Overwritten(rows + [r]) == Overwritten(rows) + PreviousCharge(rows, r)
    decreases |rows|
  {
    var all := rows + [r];
    if rows == [] {
      assert all == [r] && all[1..] == [];
    } else {
      var x, rest := rows[0], rows[1..];
      assert all[1..] == rest + [r];
      assert rows == [x] + rest;
      OverwrittenSnoc(rest, r);
      if IsCharge(r) {
        LastChargeAfter(x, rest, r.eventId, r.chargeType.value);
      }
      ReplacedBySnoc(x, rest, r);
      if IsCharge(r) && !ReplacedBy(r, rest) {
        NoEarlierCharge(rest, r);
      }
    }
  }

  lemma ReplacedBySnoc(x: ChargeRow, rest: seq<ChargeRow>, r: ChargeRow)
    ensures ReplacedBy(x, rest + [r])
            <==> ReplacedBy(x, rest) || (IsCharge(x) && x.eventId == r.eventId && x.chargeType == r.chargeType)
  {
    var all := rest + [r];
    if ReplacedBy(x, rest) {
      var j :| 0 <= j < |rest| && rest[j].eventId == x.eventId && rest[j].chargeType == x.chargeType;
      assert all[j] == rest[j];
    }
    if x.eventId == r.eventId && x.chargeType == r.chargeType {
      assert all[|rest|] == r;
    }
  }

  lemma {:induction false} NoEarlierCharge(rest: seq<ChargeRow>, r: ChargeRow)
    requires IsCharge(r) && !ReplacedBy(r, rest)
    ensures LastCharge(rest, r.eventId, r.chargeType.value) == 0
    decreases |rest|
  {
    if rest != [] {
      var before := rest[..|rest| - 1];
      assert !(rest[|rest| - 1].eventId == r.eventId && rest[|rest| - 1].chargeType == r.chargeType);
      assert forall j :: 0 <= j < |before| ==> before[j] == rest[j];
      NoEarlierCharge(before, r);
    }
  }

  function SumTotals(events: seq<EventSummary>): int {
    if events == [] then 0 else events[0].total + SumTotals(events[1..])
  }

  /** The same sum, taken over the events. */
  function SumOver(rows: seq<ChargeRow>, ids: seq<Key>): int {
    if ids == [] then 0
    else LastCharge(rows, ids[0], RECEIVE) + LastCharge(rows, ids[0], STAGE) + SumOver(rows, ids[1..])
  }

  lemma {:induction false} SumOverIsSumTotals(rows: seq<ChargeRow>, ids: seq<Key>)
    requires forall i :: 0 <= i < |ids| ==> SummaryOf(rows, ids[i]).Some?
    ensures SumTotals(Summaries(rows, ids)) == SumOver(rows, ids)
  {
    if ids != [] {
      AmountsAreLast(rows, ids[0]);
      SumOverIsSumTotals(rows, ids[1..]);
      var rest := Summaries(rows, ids[1..]);
      assert ([SummaryOf(rows, ids[0]).value] + rest)[1..] == rest;
    }
  }

  lemma {:induction false} SumOfInsert(x: EventSummary, s: seq<EventSummary>)
    ensures SumTotals(Insert(Newest(), x, s)) == x.total + SumTotals(s)
  {
    var key := Newest();
    if s == [] || key(x) <= key(s[0]) {
      assert ([x] + s)[1..] == s;
    } else {
      SumOfInsert(x, s[1..]);
      var rest := Insert(key, x, s[1..]);
      assert ([s[0]] + rest)[1..] == rest;
    }
  }

  lemma {:induction false} SumOfSort(s: seq<EventSummary>)
    ensures SumTotals(StableSort(Newest(), s)) == SumTotals(s)
  {
    if s != [] {
      SumOfSort(s[1..]);
      SumOfInsert(s[0], StableSort(Newest(), s[1..]));
    }
  }

  /** A new row changes the sum over the events by what it adds less what it replaces. */
  lemma {:induction false} SumOverSnoc(rows: seq<ChargeRow>, r: ChargeRow, ids: seq<Key>)
    requires forall i, j :: 0 <= i < j < |ids| ==> ids[i] != ids[j]
    ensures SumOver(rows + [r], ids)
         == SumOver(rows, ids) + if r.eventId in ids then Charge(r) - PreviousCharge(rows, r) else 0
    decreases |ids|
  {
    if ids != [] {
      assert (rows + [r])[..|rows|] == rows;
      SumOverSnoc(rows, r, ids[1..]);
      assert ids == [ids[0]] + ids[1..];
      assert ids[0] !in ids[1..];
    }
  }

  lemma {:induction false} SumOverAppend(rows: seq<ChargeRow>, ids: seq<Key>, id: Key)
    ensures SumOver(rows, ids + [id]) == SumOver(rows, ids) + SumOver(rows, [id])
    decreases |ids|
  {
    if ids == [] {
      assert ids + [id] == [id];
    } else {
      assert (ids + [id])[1..] == ids[1..] + [id];
      SumOverAppend(rows, ids[1..], id);
    }
  }

  lemma {:induction false} SumOverEvents(rows: seq<ChargeRow>)
    ensures SumOver(rows, Order(rows)) + Overwritten(rows) == SumCharges(rows)
    decreases |rows|
  {
    if rows != [] {
      var r, before := rows[|rows| - 1], rows[..|rows| - 1];
      assert rows == before + [r];
      SumOverEvents(before);
      OverwrittenSnoc(before, r);
      OrderIs(before);
      OrderIs(rows);
      SumOverSnoc(before, r, Order(rows));
      if SummaryOf(before, r.eventId).None? {
        SumOverAppend(before, Order(before), r.eventId);
        AmountsAreLast(before, r.eventId);
        assert [r.eventId][1..] == [];
        assert SumOver(before, [r.eventId]) == 0 + SumOver(before, []);
      }
      assert r.eventId in Order(rows);
    }
  }

  /** For all rows: the event totals and the overwritten charges together are all the charges. */
  lemma Conservation(rows: seq<ChargeRow>)
    ensures SumTotals(Grouped(rows)) + Overwritten(rows) == SumCharges(rows)
  {
    OrderHasSummaries(rows);
    SumOfSort(Summaries(rows, Order(rows)));
    SumOverIsSumTotals(rows, Order(rows));
    SumOverEvents(rows);
  }

  /** No charge that counts is followed by one of the same event and type. */
  predicate NothingLost(rows: seq<ChargeRow>) {
    forall i :: 0 <= i < |rows| && ReplacedBy(rows[i], rows[i + 1..]) ==> Charge(rows[i]) == 0
  }

  lemma NothingLostCons(rows: seq<ChargeRow>)
    requires rows != []
    ensures NothingLost(rows) <==> (ReplacedBy(rows[0], rows[1..]) ==> Charge(rows[0]) == 0) && NothingLost(rows[1..])
  {
    var rest := rows[1..];
    forall i | 0 <= i < |rest| ensures rest[i] == rows[i + 1] && rest[i + 1..] == rows[i + 2..] {
    }
    if NothingLost(rows) {
      forall i | 0 <= i < |rest| && ReplacedBy(rest[i], rest[i + 1..]) ensures Charge(rest[i]) == 0 {
        assert ReplacedBy(rows[i + 1], rows[i + 2..]);
      }
    }
    if NothingLost(rest) {
      forall i | 1 <= i < |rows| && ReplacedBy(rows[i], rows[i + 1..]) ensures Charge(rows[i]) == 0 {
        assert rest[i - 1] == rows[i] && rest[i..] == rows[i + 1..];
        assert ReplacedBy(rest[i - 1], rest[i..]);
      }
    }
  }

  lemma {:induction false} OverwrittenIsZero(rows: seq<ChargeRow>)
    requires forall i :: 0 <= i < |rows| ==> Charge(rows[i]) >= 0
    ensures Overwritten(rows) >= 0
    ensures Overwritten(rows) == 0 <==> NothingLost(rows)
    decreases |rows|
  {
    if rows != [] {
      OverwrittenIsZero(rows[1..]);
      NothingLostCons(rows);
    }
  }

  /** With no negative charge, the totals are the sum of all deductions exactly when nothing is lost. */
  lemma ConservedExactlyWhen(rows: seq<ChargeRow>)
    requires forall i :: 0 <= i < |rows| ==> Charge(rows[i]) >= 0
    ensures SumTotals(Grouped(rows)) == SumCharges(rows) <==> NothingLost(rows)
  {
    Conservation(rows);
    OverwrittenIsZero(rows);
  }

  /** Rows that lose a charge: two receipts of one event, of which the second replaces the first. */
  lemma SecondReceiptReplacesTheFirst(id: Key, first: int, second: int)
    ensures var row := (n: int) => ChargeRow(id, None, None, None, Some("receive"), Some(n), None, None);
            var rows := [row(first), row(second)];
            && SumTotals(Grouped(rows)) == second
            && SumCharges(rows) == first + second
  {
    var row := (n: int) => ChargeRow(id, None, None, None, Some("receive"), Some(n), None, None);
    var rows := [row(first), row(second)];
    assert rows[..1] == [row(first)] && rows[1..] == [row(second)];
    assert [row(first)][..0] == [] && [row(second)][1..] == [];
    assert rows[1..][0].eventId == rows[0].eventId && rows[1..][0].chargeType == rows[0].chargeType;
    assert ReplacedBy(rows[0], rows[1..]) && !ReplacedBy(row(second), []);
    assert SumCharges([row(first)]) == first;
    assert Overwritten([row(second)]) == 0;
    Conservation(rows);
  }

  /** No two charge rows share event and type. */
  predicate DistinctCharges(rows: seq<ChargeRow>) {
    forall i, j :: 0 <= i < j < |rows| && IsCharge(rows[i]) && rows[i].eventId == rows[j].eventId ==>
      rows[i].chargeType != rows[j].chargeType
  }

  lemma {:induction false} DistinctLosesNothing(rows: seq<ChargeRow>)
    requires DistinctCharges(rows)
    ensures Overwritten(rows) == 0
    decreases |rows|
  {
    if rows != [] {
      var rest := rows[1..];
      assert forall i :: 0 <= i < |rest| ==> rest[i] == rows[i + 1];
      DistinctLosesNothing(rest);
    }
  }

  /** Whatever the amounts, refunds included. */
  lemma DistinctChargesAreConserved(rows: seq<ChargeRow>)
    requires DistinctCharges(rows)
    ensures SumTotals(Grouped(rows)) == SumCharges(rows)
  {
    Conservation(rows);
    DistinctLosesNothing(rows);
  }

  // ---------------------------------------------------------------- independence of the row order

  lemma {:induction false} ChargeIsUnique(rows: seq<ChargeRow>, k: nat)
    requires DistinctCharges(rows) && k < |rows| && IsCharge(rows[k])
    ensures LastCharge(rows, rows[k].eventId, rows[k].chargeType.value) == Charge(rows[k])
    decreases |rows|
  {
    var n := |rows| - 1;
    if k < n {
      assert rows[n].eventId == rows[k].eventId ==> rows[n].chargeType != rows[k].chargeType;
      assert forall i :: 0 <= i < n ==> rows[..n][i] == rows[i];
      ChargeIsUnique(rows[..n], k);
    }
  }

  lemma {:induction false} NoCharge(rows: seq<ChargeRow>, id: Key, kind: string)
    requires forall i :: 0 <= i < |rows| ==> !SamePair(rows[i], id, kind)
    ensures LastCharge(rows, id, kind) == 0
    decreases |rows|
  {
    if rows != [] {
      assert forall i :: 0 <= i < |rows| - 1 ==> rows[..|rows| - 1][i] == rows[i];
      NoCharge(rows[..|rows| - 1], id, kind);
    }
  }

  lemma SameCharge(rows: seq<ChargeRow>, other: seq<ChargeRow>, id: Key, kind: string)
    requires multiset(rows) == multiset(other) && DistinctCharges(rows) && DistinctCharges(other)
    requires kind == RECEIVE || kind == STAGE
    ensures LastCharge(rows, id, kind) == LastCharge(other, id, kind)
  {
    if i :| 0 <= i < |rows| && SamePair(rows[i], id, kind) {
      assert rows[i] in multiset(other);
      var j :| 0 <= j < |other| && other[j] == rows[i];
      ChargeIsUnique(rows, i);
      ChargeIsUnique(other, j);
    } else {
      forall j | 0 <= j < |other| ensures !SamePair(other[j], id, kind) {
        assert other[j] in multiset(rows);
      }
      NoCharge(rows, id, kind);
      NoCharge(other, id, kind);
    }
  }

  lemma SameTime(rows: seq<ChargeRow>, other: seq<ChargeRow>, id: Key)
    requires multiset(rows) == multiset(other) && SummaryOf(rows, id).Some? && SummaryOf(other, id).Some?
    ensures SummaryOf(rows, id).value.recordedAt == SummaryOf(other, id).value.recordedAt
  {
    TimeIsLeast(rows, id);
    TimeIsLeast(other, id);
    var t, u := SummaryOf(rows, id).value.recordedAt, SummaryOf(other, id).value.recordedAt;
    if t.Some? {
      var i :| 0 <= i < |rows| && rows[i].eventId == id && rows[i].recordedAt == t;
      assert rows[i] in multiset(other);
      var j :| 0 <= j < |other| && other[j] == rows[i];
      assert u.Some? && u.value <= t.value;
    }
    if u.Some? {
      var j :| 0 <= j < |other| && other[j].eventId == id && other[j].recordedAt == u;
      assert other[j] in multiset(rows);
      var i :| 0 <= i < |rows| && rows[i] == other[j];
      assert t.Some? && t.value <= u.value;
    }
  }

  lemma {:induction false} CountOfCharge(rows: seq<ChargeRow>, r: ChargeRow)
    requires DistinctCharges(rows) && IsCharge(r)
    ensures multiset(rows)[r] <= 1
    decreases |rows|
  {
    if rows != [] {
      var rest := rows[1..];
      assert rows == [rows[0]] + rest;
      assert forall i :: 0 <= i < |rest| ==> rest[i] == rows[i + 1];
      CountOfCharge(rest, r);
      if r == rows[0] {
        assert r !in rest;
      }
    }
  }

  lemma DistinctInAnyOrder(rows: seq<ChargeRow>, other: seq<ChargeRow>)
    requires multiset(rows) == multiset(other) && DistinctCharges(rows)
    ensures DistinctCharges(other)
  {
    forall i, j | 0 <= i < j < |other| && IsCharge(other[i]) && other[i].eventId == other[j].eventId
      ensures other[i].chargeType != other[j].chargeType
    {
      assert other[i] in multiset(rows) && other[j] in multiset(rows);
      var m :| 0 <= m < |rows| && rows[m] == other[i];
      var n :| 0 <= n < |rows| && rows[n] == other[j];
      if m == n {
        CountOfTwo(other, i, j);
        CountOfCharge(rows, other[i]);
      }
    }
  }

  /**
   The events and their times do not depend on the order of the rows; with distinct charges neither do
   their amounts.
   */
  lemma OrderOfRowsIsImmaterial(rows: seq<ChargeRow>, other: seq<ChargeRow>, id: Key)
    requires multiset(rows) == multiset(other)
    ensures SummaryOf(rows, id).Some? <==> SummaryOf(other, id).Some?
    ensures SummaryOf(rows, id).Some? ==> SummaryOf(rows, id).value.recordedAt == SummaryOf(other, id).value.recordedAt
    ensures SummaryOf(rows, id).Some? && DistinctCharges(rows) ==>
              var a, b := SummaryOf(rows, id).value, SummaryOf(other, id).value;
              a.receive == b.receive && a.stage == b.stage && a.total == b.total
  {
    SummaryKeepsId(rows, id);
    SummaryKeepsId(other, id);
    if i :| 0 <= i < |rows| && rows[i].eventId == id {
      assert rows[i] in multiset(other);
    }
    if j :| 0 <= j < |other| && other[j].eventId == id {
      assert other[j] in multiset(rows);
    }
    if SummaryOf(rows, id).Some? {
      SameTime(rows, other, id);
      if DistinctCharges(rows) {
        DistinctInAnyOrder(rows, other);
        AmountsAreLast(rows, id);
        AmountsAreLast(other, id);
        SameCharge(rows, other, id, RECEIVE);
        SameCharge(rows, other, id, STAGE);
      }
    }
  }
}
