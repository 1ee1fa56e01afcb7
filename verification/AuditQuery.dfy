/** The audit query: filters, numbered placeholders and paging
    (plugins/audit-enterprise/src/query/query-method.ts), with the CSV export on top of it. */
module AuditQuery {
  import opened Common
  import opened AuditCsv
  import opened Picking

  const DEFAULT_PAGE_SIZE := 100
  const MAX_PAGE_SIZE := 1000

  /** A stored entry with its timestamp as the database compares it. */
  datatype Stored = Stored(entry: Entry, time: int)

  /** The table in the order in which the database answers `ORDER BY timestamp DESC`. */
  type Table = seq<Stored>

  datatype Filters = Filters(userId: Option<string>, actionType: Option<string>, from: Option<string>, to: Option<string>,
                             policyResult: Option<string>, requestId: Option<string>)

  datatype Params = Params(tenantId: string, filters: Filters, limit: Option<int>, pageSize: Option<int>,
                           page: Option<int>, offset: Option<nat>)

  datatype Response = Response(entries: seq<Entry>, total: nat, page: int, pageSize: int, hasMore: bool)

  // ----- SQL -----

  datatype Column = TenantId | UserId | ActionType | PolicyResult | RequestId

  /** `column = $i`, `timestamp >= $i` or `timestamp <= $i`; placeholders count from 1. */
  datatype Condition =
    | Equals(column: Column, placeholder: nat)
    | NotBefore(placeholder: nat)
    | NotAfter(placeholder: nat)

  datatype Value = Text(s: string) | Number(n: int)

  function Cell(e: Entry, c: Column): string {
    match c
    case TenantId => e.tenantId
    case UserId => e.userId
    case ActionType => e.actionType
    case PolicyResult => e.policyResult
    case RequestId => e.requestId
  }

  /** `when` is the database's reading of a text as a timestamp. A placeholder without a text value
      selects nothing. */
  predicate Holds(c: Condition, values: seq<Value>, when: string -> int, row: Stored) {
    0 < c.placeholder <= |values| && values[c.placeholder - 1].Text? &&
    var text := values[c.placeholder - 1].s;
    match c
    case Equals(column, _) => Cell(row.entry, column) == text
    case NotBefore(_) => row.time >= when(text)
    case NotAfter(_) => row.time <= when(text)
  }

  predicate HoldsAll(cs: seq<Condition>, values: seq<Value>, when: string -> int, row: Stored) {
    forall i :: 0 <= i < |cs| ==> Holds(cs[i], values, when, row)
  }

  function Select(table: Table, cs: seq<Condition>, values: seq<Value>, when: string -> int): seq<Entry> {
    if table == [] then []
    else (if HoldsAll(cs, values, when, table[0]) then [table[0].entry] else [])
         + Select(table[1..], cs, values, when)
  }

  /** `LIMIT` and `OFFSET`. */
  function Slice<T>(rows: seq<T>, offset: nat, limit: nat): seq<T> {
    if offset >= |rows| then []
    else if offset + limit <= |rows| then rows[offset..offset + limit]
    else rows[offset..]
  }

  // ----- What a query means -----

  predicate Given(filter: Option<string>) {
    filter.Some? && filter.value != ""
  }

  predicate MatchesText(filter: Option<string>, cell: string) {
    Given(filter) ==> cell == filter.value
  }

  predicate MatchesBound(lower: bool, filter: Option<string>, when: string -> int, time: int) {
    Given(filter) ==> if lower then when(filter.value) <= time else time <= when(filter.value)
  }

  predicate Matches(tenantId: string, f: Filters, when: string -> int, row: Stored) {
    && row.entry.tenantId == tenantId
    && MatchesText(f.userId, row.entry.userId)
    && MatchesText(f.actionType, row.entry.actionType)
    && MatchesBound(true, f.from, when, row.time)
    && MatchesBound(false, f.to, when, row.time)
    && MatchesText(f.policyResult, row.entry.policyResult)
    && MatchesText(f.requestId, row.entry.requestId)
  }

  /** The tenant's entries that satisfy every given filter, in the table's order. */
  function Matching(table: Table, tenantId: string, f: Filters, when: string -> int): seq<Entry> {
    if table == [] then []
    else (if Matches(tenantId, f, when, table[0]) then [table[0].entry] else [])
         + Matching(table[1..], tenantId, f, when)
  }

  function ClampedPageSize(p: Params): nat {
    var requested := if p.limit.Some? then p.limit.value else p.pageSize.GetOr(DEFAULT_PAGE_SIZE);
    if requested < 1 then 1 else if requested > MAX_PAGE_SIZE then MAX_PAGE_SIZE else requested
  }

  function ClampedPage(p: Params): (k: nat)
    ensures k > 0
  {
    if p.page.GetOr(1) < 1 then 1 else p.page.GetOr(1)
  }

  /** Rows on the pages before page `k`. */
  function RowsBefore(k: nat, size: nat): nat
    requires k > 0
  {
    var pages: nat := k - 1;
    Times(pages, size)
  }

  function Times(a: nat, b: nat): nat {
    a * b
  }

  function OffsetOf(p: Params): nat {
    if p.offset.Some? then p.offset.value else RowsBefore(ClampedPage(p), ClampedPageSize(p))
  }

  /** The answer to a query, in terms of the matching entries alone. */
  function Answer(table: Table, p: Params, when: string -> int): Response {
    var matching := Matching(table, p.tenantId, p.filters, when);
    var entries := Slice(matching, OffsetOf(p), ClampedPageSize(p));
    Response(entries, |matching|, ClampedPage(p), ClampedPageSize(p), OffsetOf(p) + |entries| < |matching|)
  }

  ghost predicate Is(filter: Option<string>, cell: string) {
    filter.None? || filter.value == "" || filter.value == cell
  }

  /** The row is the tenant's and satisfies each filter that is given; both bounds are inclusive. */
  ghost predicate Selected(tenantId: string, f: Filters, when: string -> int, row: Stored) {
    && row.entry.tenantId == tenantId
    && Is(f.userId, row.entry.userId) && Is(f.actionType, row.entry.actionType)
    && Is(f.policyResult, row.entry.policyResult) && Is(f.requestId, row.entry.requestId)
    && (f.from.Some? && f.from.value != "" ==> when(f.from.value) <= row.time)
    && (f.to.Some? && f.to.value != "" ==> row.time <= when(f.to.value))
  }

  lemma {:induction false} MatchingSnoc(table: Table, row: Stored, tenantId: string, f: Filters, when: string -> int)
    ensures Matching(table + [row], tenantId, f, when)
         == Matching(table, tenantId, f, when) + if Selected(tenantId, f, when, row) then [row.entry] else []
  {
    var all := table + [row];
    if table == [] {
      assert all[1..] == [];
    } else {
      assert all[1..] == table[1..] + [row];
      MatchingSnoc(table[1..], row, tenantId, f, when);
    }
  }

  /** The matching entries are those of the selected rows, in the table's order. */
  lemma {:induction false} MatchingInOrder(table: Table, tenantId: string, f: Filters, when: string -> int)
      returns (at: seq<nat>)
    ensures Positions(at, |table|)
    ensures forall k: nat :: k < |table| ==> (k in at <==> Selected(tenantId, f, when, table[k]))
    ensures |Matching(table, tenantId, f, when)| == |at|
    ensures forall i :: 0 <= i < |at| ==> Matching(table, tenantId, f, when)[i] == table[at[i]].entry
  {
    if table == [] {
      at := [];
    } else {
      var n: nat := |table| - 1;
      at := MatchingInOrder(table[..n], tenantId, f, when);
      OneMorePosition(at, n);
      MatchingSnoc(table[..n], table[n], tenantId, f, when);
      assert table == table[..n] + [table[n]];
      if Selected(tenantId, f, when, table[n]) {
        at := at + [n];
      }
    }
  }

  lemma SliceHolds(rows: seq<Entry>, offset: nat, limit: nat)
    ensures var s := Slice(rows, offset, limit);
            && |s| == (if offset >= |rows| then 0 else if offset + limit <= |rows| then limit else |rows| - offset)
            && forall i :: 0 <= i < |s| ==> s[i] == rows[offset + i]
  {
  }

  /** The page and page size asked for, as far as they are within range. */
  lemma PageIs(p: Params)
    ensures var asked := if p.limit.Some? then p.limit.value else if p.pageSize.Some? then p.pageSize.value else 100;
            ClampedPageSize(p) == if asked < 1 then 1 else if asked > 1000 then 1000 else asked
    ensures ClampedPage(p) == if p.page.Some? && p.page.value > 1 then p.page.value else 1
    ensures OffsetOf(p) == if p.offset.Some? then p.offset.value else (ClampedPage(p) - 1) * ClampedPageSize(p)
  {
  }

  /** What an answer holds: the number of all matching entries; the entries from the offset on, which a given
      offset decides and the page otherwise, as many as the page holds; and whether any follow. */
  lemma AnswerHolds(table: Table, p: Params, when: string -> int) returns (offset: nat)
    ensures var r, matching := Answer(table, p, when), Matching(table, p.tenantId, p.filters, when);
            && r.total == |matching|
            && r.page == ClampedPage(p) && r.pageSize == ClampedPageSize(p)
            && offset == (if p.offset.Some? then p.offset.value else (r.page - 1) * r.pageSize)
            && |r.entries| == (if offset >= |matching| then 0
                               else if offset + r.pageSize <= |matching| then r.pageSize else |matching| - offset)
            && (forall i :: 0 <= i < |r.entries| ==> r.entries[i] == matching[offset + i])
            && (r.hasMore <==> offset + |r.entries| < |matching|)
  {
    offset := OffsetOf(p);
    PageIs(p);
    SliceHolds(Matching(table, p.tenantId, p.filters, when), offset, ClampedPageSize(p));
  }

  // ----- Building the query -----

  /** Condition i uses placeholder i + 1, and the values are texts, one a condition. */
  ghost predicate Aligned(cs: seq<Condition>, values: seq<Value>, paramIndex: nat) {
    && |cs| == |values| == paramIndex - 1
    && (forall i :: 0 <= i < |cs| ==> cs[i].placeholder == i + 1)
    && (forall i :: 0 <= i < |values| ==> values[i].Text?)
  }

  /** Pushing a condition with the next placeholder, and its value, adds just that condition. */
  lemma AppendCondition(cs: seq<Condition>, values: seq<Value>, c: Condition, v: Value, when: string -> int)
    requires Aligned(cs, values, |values| + 1) && c.placeholder == |values| + 1 && v.Text?
    ensures Aligned(cs + [c], values + [v], |values| + 2)
    ensures forall row :: HoldsAll(cs + [c], values + [v], when, row)
                     <==> HoldsAll(cs, values, when, row) && Holds(c, values + [v], when, row)
  {
    var next, all := cs + [c], values + [v];
    forall row ensures HoldsAll(next, all, when, row) <==> HoldsAll(cs, values, when, row) && Holds(c, all, when, row) {
      assert next[|cs|] == c;
      forall i | 0 <= i < |cs| ensures Holds(next[i], all, when, row) <==> Holds(cs[i], values, when, row) {
        assert next[i] == cs[i];
      }
      if HoldsAll(next, all, when, row) {
        forall i | 0 <= i < |cs| ensures Holds(cs[i], values, when, row) {
          assert Holds(next[i], all, when, row);
        }
      }
    }
  }

  /** The conditions, their values and the next free placeholder. The clause selects exactly the
      tenant's rows that satisfy each given filter. */
  method BuildWhere(tenantId: string, f: Filters, ghost when: string -> int)
      returns (cs: seq<Condition>, values: seq<Value>, paramIndex: nat)
    ensures Aligned(cs, values, paramIndex)
    ensures forall row :: HoldsAll(cs, values, when, row) <==> Matches(tenantId, f, when, row)
  {
    cs, values, paramIndex := [Equals(TenantId, 1)], [Text(tenantId)], 2;
    assert forall row :: HoldsAll(cs, values, when, row) <==> Holds(cs[0], values, when, row);
    cs, values, paramIndex := AddEquals(UserId, f.userId, cs, values, paramIndex, when);
    cs, values, paramIndex := AddEquals(ActionType, f.actionType, cs, values, paramIndex, when);
    cs, values, paramIndex := AddBound(true, f.from, cs, values, paramIndex, when);
    cs, values, paramIndex := AddBound(false, f.to, cs, values, paramIndex, when);
    cs, values, paramIndex := AddEquals(PolicyResult, f.policyResult, cs, values, paramIndex, when);
    cs, values, paramIndex := AddEquals(RequestId, f.requestId, cs, values, paramIndex, when);
  }

  /** One `column = $n` filter: skipped when absent or empty. */
  method AddEquals(column: Column, filter: Option<string>, cs: seq<Condition>, values: seq<Value>, paramIndex: nat,
                   ghost when: string -> int)
      returns (cs': seq<Condition>, values': seq<Value>, paramIndex': nat)
    requires Aligned(cs, values, paramIndex)
    ensures Aligned(cs', values', paramIndex')
    ensures forall row :: HoldsAll(cs', values', when, row)
                     <==> HoldsAll(cs, values, when, row) && MatchesText(filter, Cell(row.entry, column))
  {
    cs', values', paramIndex' := cs, values, paramIndex;
    if filter.Some? && filter.value != "" {
      AppendCondition(cs, values, Equals(column, paramIndex), Text(filter.value), when);
      cs' := cs + [Equals(column, paramIndex)];
      values' := values + [Text(filter.value)];
      paramIndex' := paramIndex + 1;
    }
  }

  /** The `from` filter, or else the `to` filter. */
  method AddBound(lower: bool, filter: Option<string>, cs: seq<Condition>, values: seq<Value>, paramIndex: nat,
                  ghost when: string -> int)
      returns (cs': seq<Condition>, values': seq<Value>, paramIndex': nat)
    requires Aligned(cs, values, paramIndex)
    ensures Aligned(cs', values', paramIndex')
    ensures forall row :: HoldsAll(cs', values', when, row)
                     <==> HoldsAll(cs, values, when, row) && MatchesBound(lower, filter, when, row.time)
  {
    cs', values', paramIndex' := cs, values, paramIndex;
    if filter.Some? && filter.value != "" {
      var c := if lower then NotBefore(paramIndex) else NotAfter(paramIndex);
      AppendCondition(cs, values, c, Text(filter.value), when);
      cs' := cs + [c];
      values' := values + [Text(filter.value)];
      paramIndex' := paramIndex + 1;
    }
  }

  lemma {:induction false} SelectIsMatching(table: Table, cs: seq<Condition>, values: seq<Value>, when: string -> int,
                                            tenantId: string, f: Filters)
    requires forall row :: HoldsAll(cs, values, when, row) <==> Matches(tenantId, f, when, row)
    ensures Select(table, cs, values, when) == Matching(table, tenantId, f, when)
  {
    if table != [] {
      SelectIsMatching(table[1..], cs, values, when, tenantId, f);
    }
  }

  /** The handler, with the database as the table it reads. */
  method Query(table: Table, p: Params, when: string -> int) returns (r: Response)
    ensures r == Answer(table, p, when)
  {
    var requested := if p.limit.Some? then p.limit.value else if p.pageSize.Some? then p.pageSize.value else DEFAULT_PAGE_SIZE;
    var atLeastOne := if requested > 1 then requested else 1;
    var pageSize := if atLeastOne < MAX_PAGE_SIZE then atLeastOne else MAX_PAGE_SIZE;
    var page := if p.page.GetOr(1) > 1 then p.page.GetOr(1) else 1;
    var offset := if p.offset.Some? then p.offset.value else RowsBefore(page, pageSize);
    var cs, values, paramIndex := BuildWhere(p.tenantId, p.filters, when);
    SelectIsMatching(table, cs, values, when, p.tenantId, p.filters);
    var total := |Select(table, cs, values, when)|;
    // LIMIT $paramIndex OFFSET $(paramIndex + 1)
    var all := values + [Number(pageSize), Number(offset)];
    assert all[paramIndex - 1] == Number(pageSize) && all[paramIndex] == Number(offset);
    var entries := Slice(Select(table, cs, values, when), all[paramIndex].n, all[paramIndex - 1].n);
    r := Response(entries, total, page, pageSize, offset + |entries| < total);
  }

  // ----- Paging tiles the answer -----

  /** The entries of page `k`, counted from 1, as the handler answers. */
  function PageAnswer(table: Table, p: Params, when: string -> int, k: nat): Response {
    Answer(table, p.(page := Some(k), offset := None), when)
  }

  /** Fetching page after page, from `k` on, until `has_more` is false. */
  function FetchFrom(table: Table, p: Params, when: string -> int, k: nat): seq<Entry>
    requires k > 0
    decreases |Matching(table, p.tenantId, p.filters, when)| - RowsBefore(k, ClampedPageSize(p))
  {
    var r := PageAnswer(table, p, when, k);
    MoreMeansAFullPage(table, p, when, k);
    if r.hasMore then r.entries + FetchFrom(table, p, when, k + 1) else r.entries
  }

  /** A page that is not the last is full, and the next begins where it ends. */
  lemma MoreMeansAFullPage(table: Table, p: Params, when: string -> int, k: nat)
    requires k > 0
    ensures var r, rows, size := PageAnswer(table, p, when, k), Matching(table, p.tenantId, p.filters, when), ClampedPageSize(p);
            && 1 <= size <= MAX_PAGE_SIZE
            && RowsBefore(k + 1, size) == RowsBefore(k, size) + size
            && (r.hasMore <==> RowsBefore(k + 1, size) < |rows|)
            && (r.hasMore ==> r.entries == rows[RowsBefore(k, size)..RowsBefore(k + 1, size)])
            && (!r.hasMore && RowsBefore(k, size) <= |rows| ==> r.entries == rows[RowsBefore(k, size)..])
  {
    NextPage(k, ClampedPageSize(p));
  }

  lemma NextPage(k: nat, size: nat)
    requires k > 0
    ensures RowsBefore(k + 1, size) == RowsBefore(k, size) + size
  {
  }

  lemma SliceAndRest(rows: seq<Entry>, from: nat, to: nat)
    requires from <= to <= |rows|
    ensures rows[from..to] + rows[to..] == rows[from..]
  {
  }

  lemma {:induction false} FetchFromIsTheRest(table: Table, p: Params, when: string -> int, k: nat)
    requires k > 0
    requires RowsBefore(k, ClampedPageSize(p)) <= |Matching(table, p.tenantId, p.filters, when)|
    ensures FetchFrom(table, p, when, k)
         == Matching(table, p.tenantId, p.filters, when)[RowsBefore(k, ClampedPageSize(p))..]
    decreases |Matching(table, p.tenantId, p.filters, when)| - RowsBefore(k, ClampedPageSize(p))
  {
    var rows, from, next := Matching(table, p.tenantId, p.filters, when), RowsBefore(k, ClampedPageSize(p)),
                            RowsBefore(k + 1, ClampedPageSize(p));
    MoreMeansAFullPage(table, p, when, k);
    if PageAnswer(table, p, when, k).hasMore {
      FetchFromIsTheRest(table, p, when, k + 1);
      SliceAndRest(rows, from, next);
    }
  }

  /** Whatever page size is asked for, pages 1, 2, ... up to the first without more yield every matching
      entry exactly once, in order. */
  lemma PagesTile(table: Table, p: Params, when: string -> int)
    ensures FetchFrom(table, p, when, 1) == Matching(table, p.tenantId, p.filters, when)
  {
    FetchFromIsTheRest(table, p, when, 1);
  }

  // ----- The export -----

  /** What the export asks for. */
  function ExportParams(tenantId: string, f: Filters): Params {
    Params(tenantId, f, None, Some(1000), Some(1), None)
  }

  method ExportCsv(table: Table, tenantId: string, f: Filters, when: string -> int) returns (csv: string)
    ensures Read(csv) == Some([CSV_HEADERS] + Rows(Slice(Matching(table, tenantId, f, when), 0, MAX_PAGE_SIZE)))
  {
    var r := Query(table, ExportParams(tenantId, f), when);
    csv := Export(r.entries);
    ExportRoundTrip(r.entries);
  }

  /** The export carries every matching entry exactly when there are at most 1000 of them. */
  lemma ExportIsCompleteIff(rows: seq<Entry>)
    ensures Read(Export(Slice(rows, 0, MAX_PAGE_SIZE))) == Some([CSV_HEADERS] + Rows(rows)) <==> |rows| <= MAX_PAGE_SIZE
  {
    var first := Slice(rows, 0, MAX_PAGE_SIZE);
    ExportRoundTrip(first);
    if |rows| <= MAX_PAGE_SIZE {
      assert first == rows;
    } else {
      assert |[CSV_HEADERS] + Rows(first)| != |[CSV_HEADERS] + Rows(rows)|;
    }
  }

  /** Of 1001 entries the last is left out. */
  lemma LastEntryIsLeftOut(e: Entry)
    ensures var rows := seq(1001, _ => e);
            Read(Export(Slice(rows, 0, MAX_PAGE_SIZE))) != Some([CSV_HEADERS] + Rows(rows))
  {
    ExportIsCompleteIff(seq(1001, _ => e));
  }
}
