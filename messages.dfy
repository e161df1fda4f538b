/**
 * The message API of the Go server: the create and update handlers'
 * validation ladders, the `strconv.Atoi` parse of the `{id}` path
 * parameter, the list handler's `rows.Next()` loop, and an in-memory table
 * with the semantics of the three SQL statements behind `insertMessage`,
 * `updateMessage` and the list query. The request-context user id, the
 * decoded JSON body and each database answer are inputs.
 */
module MessageApi {
  import opened Text
  import opened Types
  import opened Responses

  /** `messageListItem`; `created_at` is kept as an instant on a single integer clock. */
  datatype Item = Item(id: int, body: string, createdAt: int)

  /** A row of the `messages` table. */
  datatype Row = Row(id: int, userId: string, body: string, createdAt: int)

  /** The result of `json.Decoder.Decode` into a request with a single `body` field. */
  datatype RequestBody = Malformed | BodyField(body: string)

  datatype StoreError = ErrNoRows | StoreFailure
  datatype StoreResult = StoreOk(item: Item) | StoreErr(err: StoreError)

  /** A call a handler makes into the store, with its arguments. */
  datatype StoreCall = InsertCall(userId: string, body: string) | UpdateCall(id: int, userId: string, body: string)

  /** What one handler invocation did: the store call it made, if any, and its reply. */
  datatype Run = Run(call: Option<StoreCall>, reply: Reply<Item>)

  const MaxInt64: int := 0x7FFF_FFFF_FFFF_FFFF
  const MinInt64: int := -0x8000_0000_0000_0000

  const BodyRequired: string := "body is required"
  const InvalidId: string := "invalid message id"
  const NotFound: string := "message not found"

  /**
   * `strconv.Atoi` on a 64-bit platform: an optional `+` or `-`, then at
   * least one ASCII digit and nothing else, and a value that fits in int64.
   */
  function Atoi(s: string): (r: Option<int>)
    ensures r.Some? ==> MinInt64 <= r.value <= MaxInt64
    ensures r.Some? ==> |s| >= 1
  {
    var negative := |s| >= 1 && s[0] == '-';
    var digits := if |s| >= 1 && (s[0] == '-' || s[0] == '+') then s[1..] else s;
    if digits == [] || !AllDigits(digits) then None
    else
      var v: int := if negative then -(DigitsValue(digits) as int) else DigitsValue(digits);
      if MinInt64 <= v <= MaxInt64 then Some(v) else None
  }

  /** Atoi reads back every non-negative int64 that `strconv.Itoa` writes… */
  lemma AtoiDecimal(n: nat)
    requires n <= MaxInt64
    ensures Atoi(Decimal(n)) == Some(n)
  {
    DecimalValue(n);
  }

  /** …and every negative one, down to the smallest int64. */
  lemma AtoiNegative(n: nat)
    requires 1 <= n <= -MinInt64
    ensures Atoi("-" + Decimal(n)) == Some(-(n as int))
  {
    var d := Decimal(n);
    DecimalValue(n);
    var s := "-" + d;
    assert s[0] == '-' && s[1..] == d;
    assert DigitsValue(d) == n;
  }

  /** Every accepted string is a sign-optional digit string whose value is the result. */
  lemma AtoiAccepts(s: string)
    requires Atoi(s).Some?
    ensures var digits := if s[0] == '-' || s[0] == '+' then s[1..] else s;
            && digits != [] && AllDigits(digits)
            && Atoi(s).value == (if s[0] == '-' then -(DigitsValue(digits) as int) else DigitsValue(digits))
  {
  }

  /** The id the handler tests send is read as 42; signs and leading zeros are accepted. */
  lemma AtoiAcceptsExamples()
    ensures Atoi("42") == Some(42) && Atoi("+7") == Some(7) && Atoi("007") == Some(7)
  {
    assert "42"[..1] == "4" && "4"[..0] == "";
    assert "+7"[1..] == "7" && "7"[..0] == "";
    assert "007"[..2] == "00" && "00"[..1] == "0" && "0"[..0] == "";
  }

  /** "abc" and other non-numbers are rejected; so is a surrounding space. */
  lemma AtoiRejectsExamples()
    ensures Atoi("abc") == None && Atoi("") == None && Atoi("-") == None && Atoi(" 1") == None
  {
    assert !IsDigit("abc"[0]);
    assert !IsDigit(" 1"[0]);
    assert "-"[1..] == "";
  }

  /** A well-formed number outside the int64 range is rejected, on either side. */
  lemma AtoiOutOfRange(n: nat)
    requires n > MaxInt64
    ensures Atoi(Decimal(n)) == None
    ensures n > -MinInt64 ==> Atoi("-" + Decimal(n)) == None
  {
    var d := Decimal(n);
    DecimalValue(n);
    assert d[0] != '-' && d[0] != '+';
    var s := "-" + d;
    assert s[0] == '-' && s[1..] == d;
  }

  /** `getUserIDFromContext` succeeded with a non-empty value. */
  predicate HasUser(userId: Option<string>)
  {
    userId.Some? && userId.value != ""
  }

  /** `createMessageHandler`, given the user id in context, the decoded request and what `insertMessage` would return. */
  function CreateMessage(userId: Option<string>, request: RequestBody, inserted: StoreResult): (run: Run)
    ensures run.call.Some? <==> HasUser(userId) && request.BodyField? && request.body != ""
    ensures run.call.Some? ==> run.call.value == InsertCall(userId.value, request.body)
    ensures !HasUser(userId) ==> run.reply == ErrorReply(StatusInternalServerError, InternalError)
    ensures HasUser(userId) && request.Malformed? ==> run.reply == ErrorReply(StatusBadRequest, InvalidBody)
    ensures HasUser(userId) && request == BodyField("") ==> run.reply == ErrorReply(StatusBadRequest, BodyRequired)
    ensures run.call.Some? ==> run.reply == (match inserted
                                            case StoreOk(item) => JsonReply(StatusCreated, item)
                                            case StoreErr(_) => ErrorReply(StatusInternalServerError, InternalError))
  {
    if !HasUser(userId) then Run(None, ErrorReply(StatusInternalServerError, InternalError))
    else if request.Malformed? then Run(None, ErrorReply(StatusBadRequest, InvalidBody))
    else if request.body == "" then Run(None, ErrorReply(StatusBadRequest, BodyRequired))
    else
      var call := Some(InsertCall(userId.value, request.body));
      match inserted
      case StoreOk(item) => Run(call, JsonReply(StatusCreated, item))
      case StoreErr(_) => Run(call, ErrorReply(StatusInternalServerError, InternalError))
  }

  /** `updateMessageHandler`, given the user id, the raw `{id}` parameter, the decoded request and what `updateMessage` would return. */
  function UpdateMessage(userId: Option<string>, idParam: string, request: RequestBody, updated: StoreResult): (run: Run)
    ensures run.call.Some? <==> HasUser(userId) && Atoi(idParam).Some? && request.BodyField? && request.body != ""
    ensures run.call.Some? ==> run.call.value == UpdateCall(Atoi(idParam).value, userId.value, request.body)
    ensures !HasUser(userId) ==> run.reply == ErrorReply(StatusInternalServerError, InternalError)
    ensures HasUser(userId) && Atoi(idParam) == None ==> run.reply == ErrorReply(StatusBadRequest, InvalidId)
    ensures HasUser(userId) && Atoi(idParam).Some? && request.Malformed? ==> run.reply == ErrorReply(StatusBadRequest, InvalidBody)
    ensures HasUser(userId) && Atoi(idParam).Some? && request == BodyField("") ==> run.reply == ErrorReply(StatusBadRequest, BodyRequired)
    ensures run.call.Some? ==> run.reply == (match updated
                                            case StoreOk(item) => JsonReply(StatusOK, item)
                                            case StoreErr(ErrNoRows) => ErrorReply(StatusNotFound, NotFound)
                                            case StoreErr(StoreFailure) => ErrorReply(StatusInternalServerError, InternalError))
  {
    if !HasUser(userId) then Run(None, ErrorReply(StatusInternalServerError, InternalError))
    else
      match Atoi(idParam)
      case None => Run(None, ErrorReply(StatusBadRequest, InvalidId))
      case Some(id) =>
        if request.Malformed? then Run(None, ErrorReply(StatusBadRequest, InvalidBody))
        else if request.body == "" then Run(None, ErrorReply(StatusBadRequest, BodyRequired))
        else
          var call := Some(UpdateCall(id, userId.value, request.body));
          match updated
          case StoreOk(item) => Run(call, JsonReply(StatusOK, item))
          case StoreErr(ErrNoRows) => Run(call, ErrorReply(StatusNotFound, NotFound))
          case StoreErr(StoreFailure) => Run(call, ErrorReply(StatusInternalServerError, InternalError))
  }

  /** Until every check has passed the store is not consulted: its answer cannot change the reply. */
  lemma StoreOnlyAfterChecks(userId: Option<string>, idParam: string, request: RequestBody, a: StoreResult, b: StoreResult)
    ensures CreateMessage(userId, request, a).call == None ==> CreateMessage(userId, request, a) == CreateMessage(userId, request, b)
    ensures UpdateMessage(userId, idParam, request, a).call == None ==> UpdateMessage(userId, idParam, request, a) == UpdateMessage(userId, idParam, request, b)
  {
  }

  /** The id is checked before the body is decoded: a bad id wins over a bad body. */
  lemma BadIdBeforeBody(userId: string, idParam: string, request: RequestBody, updated: StoreResult)
    requires userId != "" && Atoi(idParam) == None
    ensures UpdateMessage(Some(userId), idParam, request, updated) == Run(None, ErrorReply(StatusBadRequest, InvalidId))
  {
  }

  /** `PUT /api/messages/42` reaches the store with id 42. */
  lemma UpdatePassesParsedId(userId: string, body: string, updated: StoreResult)
    requires userId != "" && body != ""
    ensures UpdateMessage(Some(userId), "42", BodyField(body), updated).call == Some(UpdateCall(42, userId, body))
  {
    AtoiAcceptsExamples();
  }

  /** The `WHERE id = $2 AND user_id = $3` condition. */
  predicate Owned(r: Row, id: int, userId: string)
  {
    r.id == id && r.userId == userId
  }

  /** No two rows share an `id`, as the serial primary key guarantees. */
  predicate DistinctIds(rows: seq<Row>)
  {
    forall i, j :: 0 <= i < j < |rows| ==> rows[i].id != rows[j].id
  }

  /**
   * With distinct ids the update's condition selects at most one row, so the
   * single-row `QueryRow … RETURNING` scan loses no updated row: `UpdateRows`
   * changes at most one position.
   */
  lemma UpdateChangesAtMostOneRow(rows: seq<Row>, id: int, userId: string, body: string)
    requires DistinctIds(rows)
    ensures forall i, j :: 0 <= i < |rows| && 0 <= j < |rows| && Owned(rows[i], id, userId) && Owned(rows[j], id, userId) ==> i == j
    ensures var r := UpdateRows(rows, id, userId, body);
            forall i, j :: 0 <= i < |rows| && 0 <= j < |rows| && r[i] != rows[i] && r[j] != rows[j] ==> i == j
  {
  }

  /** The first row the update's condition selects, if any. */
  function FindOwned(rows: seq<Row>, id: int, userId: string): (k: Option<nat>)
    ensures k.Some? ==> k.value < |rows| && Owned(rows[k.value], id, userId)
    ensures k == None <==> forall i :: 0 <= i < |rows| ==> !Owned(rows[i], id, userId)
  {
    if rows == [] then None
    else if Owned(rows[0], id, userId) then Some(0)
    else match FindOwned(rows[1..], id, userId)
         case None => None
         case Some(k) => Some(k + 1)
  }

  /** `SET body = $1` on every selected row. */
  function UpdateRows(rows: seq<Row>, id: int, userId: string, body: string): (r: seq<Row>)
  {
    seq(|rows|, i requires 0 <= i < |rows| => if Owned(rows[i], id, userId) then rows[i].(body := body) else rows[i])
  }

  /** What the `RETURNING id, body, created_at` scan yields: the updated row, or `sql.ErrNoRows`. */
  function UpdateOutcome(rows: seq<Row>, id: int, userId: string, body: string): (r: StoreResult)
  {
    match FindOwned(rows, id, userId)
    case None => StoreErr(ErrNoRows)
    case Some(k) => StoreOk(Item(id, body, rows[k].createdAt))
  }

  /**
   * Only the row matching both the id and the owner changes, and only in
   * its body; every other row, and the order, stay as they were.
   */
  lemma UpdateRowsSpec(rows: seq<Row>, id: int, userId: string, body: string)
    ensures var r := UpdateRows(rows, id, userId, body);
            && |r| == |rows|
            && (forall i :: 0 <= i < |rows| && Owned(rows[i], id, userId) ==> r[i] == Row(rows[i].id, rows[i].userId, body, rows[i].createdAt))
            && (forall i :: 0 <= i < |rows| && !Owned(rows[i], id, userId) ==> r[i] == rows[i])
  {
  }

  /** With no matching row nothing changes and the store answers `sql.ErrNoRows`; otherwise it returns the edited row. */
  lemma UpdateOutcomeSpec(rows: seq<Row>, id: int, userId: string, body: string)
    ensures UpdateOutcome(rows, id, userId, body) == StoreErr(ErrNoRows) <==> UpdateRows(rows, id, userId, body) == rows && (forall i :: 0 <= i < |rows| ==> !Owned(rows[i], id, userId))
    ensures UpdateOutcome(rows, id, userId, body).StoreOk? ==>
              exists i :: 0 <= i < |rows| && Owned(rows[i], id, userId) && UpdateOutcome(rows, id, userId, body).item == Item(rows[i].id, body, rows[i].createdAt)
  {
    var k := FindOwned(rows, id, userId);
    if k.None? {
      assert UpdateRows(rows, id, userId, body) == rows;
    } else {
      assert UpdateRows(rows, id, userId, body)[k.value].body == body;
    }
  }

  /** A user's rows, in table order. */
  function RowsOf(rows: seq<Row>, userId: string): (r: seq<Row>)
    ensures |r| <= |rows|
    ensures forall i :: 0 <= i < |r| ==> r[i].userId == userId
  {
    if rows == [] then []
    else if rows[0].userId == userId then [rows[0]] + RowsOf(rows[1..], userId)
    else RowsOf(rows[1..], userId)
  }

  function AsItem(r: Row): Item
  {
    Item(r.id, r.body, r.createdAt)
  }

  function Items(rows: seq<Row>): (items: seq<Item>)
    ensures |items| == |rows|
  {
    seq(|rows|, i requires 0 <= i < |rows| => AsItem(rows[i]))
  }

  predicate SortedByTime(items: seq<Item>)
  {
    forall i, j :: 0 <= i < j < |items| ==> items[i].createdAt <= items[j].createdAt
  }

  /** Puts `x` before the first item that is not older than it. */
  function InsertByTime(x: Item, sorted: seq<Item>): (r: seq<Item>)
    requires SortedByTime(sorted)
    ensures SortedByTime(r)
    ensures multiset(r) == multiset(sorted) + multiset{x}
    ensures |r| == |sorted| + 1 && (r[0] == x || (sorted != [] && r[0] == sorted[0]))
  {
    if sorted == [] || x.createdAt <= sorted[0].createdAt then
      SortedCons(x, sorted);
      [x] + sorted
    else
      var rest := InsertByTime(x, sorted[1..]);
      assert sorted == [sorted[0]] + sorted[1..];
      assert multiset([sorted[0]] + rest) == multiset{sorted[0]} + multiset(rest);
      assert multiset(sorted) == multiset{sorted[0]} + multiset(sorted[1..]);
      SortedCons(sorted[0], rest);
      [sorted[0]] + rest
  }

  /** An item no later than the head of a sorted list can go in front of it. */
  lemma SortedCons(y: Item, rest: seq<Item>)
    requires SortedByTime(rest)
    requires rest != [] ==> y.createdAt <= rest[0].createdAt
    ensures SortedByTime([y] + rest)
  {
    var r := [y] + rest;
    forall i, j | 0 <= i < j < |r|
      ensures r[i].createdAt <= r[j].createdAt
    {
      if i == 0 && j > 1 {
        assert rest[0].createdAt <= rest[j - 1].createdAt;
      }
    }
  }

  /** `ORDER BY created_at ASC`, by insertion. */
  function SortByTime(items: seq<Item>): (r: seq<Item>)
    ensures SortedByTime(r)
    ensures multiset(r) == multiset(items)
  {
    if items == [] then []
    else
      assert items == [items[0]] + items[1..];
      InsertByTime(items[0], SortByTime(items[1..]))
  }

  class MessageTable {
    var rows: seq<Row>
    var nextId: int

    /** The `id` column is a serial primary key: ids are distinct and below the next one. */
    predicate Valid()
      reads this
    {
      && (forall i :: 0 <= i < |rows| ==> rows[i].id < nextId)
      && DistinctIds(rows)
    }

    constructor ()
      ensures rows == [] && nextId == 1 && Valid()
    {
      rows := [];
      nextId := 1;
    }

    /** `INSERT … RETURNING id, body, created_at`; `now` is the database clock's `created_at` default. */
    method Insert(userId: string, body: string, now: int) returns (item: Item)
      requires Valid()
      modifies this
      ensures Valid()
      ensures rows == old(rows) + [Row(old(nextId), userId, body, now)] && nextId == old(nextId) + 1
      ensures item == Item(old(nextId), body, now)
    {
      item := Item(nextId, body, now);
      rows := rows + [Row(nextId, userId, body, now)];
      nextId := nextId + 1;
    }

    /** `UPDATE messages SET body = $1 WHERE id = $2 AND user_id = $3 RETURNING …`. */
    method Update(id: int, userId: string, body: string) returns (r: StoreResult)
      requires Valid()
      modifies this
      ensures Valid() && nextId == old(nextId)
      ensures rows == UpdateRows(old(rows), id, userId, body)
      ensures r == UpdateOutcome(old(rows), id, userId, body)
    {
      r := UpdateOutcome(rows, id, userId, body);
      rows := UpdateRows(rows, id, userId, body);
    }

    /** `SELECT id, body, created_at FROM messages WHERE user_id = $1 ORDER BY created_at ASC`. */
    function Select(userId: string): (items: seq<Item>)
      reads this
      ensures SortedByTime(items)
      ensures multiset(items) == multiset(Items(RowsOf(rows, userId)))
    {
      SortByTime(Items(RowsOf(rows, userId)))
    }
  }

  /** The same rows, filtered: a row is one of a user's rows exactly when it is in the table and carries that user's id. */
  lemma {:induction false} RowsOfSpec(rows: seq<Row>, userId: string, r: Row)
    ensures r in RowsOf(rows, userId) <==> r in rows && r.userId == userId
  {
    if rows != [] {
      RowsOfSpec(rows[1..], userId, r);
      assert rows == [rows[0]] + rows[1..];
    }
  }

  /** The list query returns exactly the user's messages: each of them once, and nobody else's. */
  lemma SelectIsUsersRows(t: MessageTable, userId: string, x: Item)
    ensures x in t.Select(userId) <==> exists r :: r in t.rows && r.userId == userId && AsItem(r) == x
  {
    var own := RowsOf(t.rows, userId);
    assert x in t.Select(userId) <==> x in multiset(Items(own));
    if x in Items(own) {
      var i :| 0 <= i < |own| && Items(own)[i] == x;
      RowsOfSpec(t.rows, userId, own[i]);
    }
    if exists r :: r in t.rows && r.userId == userId && AsItem(r) == x {
      var r :| r in t.rows && r.userId == userId && AsItem(r) == x;
      RowsOfSpec(t.rows, userId, r);
      var i :| 0 <= i < |own| && own[i] == r;
      assert Items(own)[i] == x;
    }
  }

  /** One `rows.Next()` step: the scanned item, or a `Scan` error. */
  datatype Scan = Scanned(item: Item) | ScanFailed

  /** The list query's outcome: `db.Query` failed, or the rows it delivered and whether `rows.Err()` reports an error. */
  datatype Query = QueryFailed | QueryRows(scans: seq<Scan>, iterFailed: bool)

  /** A Go slice: `nil` encodes as `null`, any other slice as an array. */
  datatype Slice = NilSlice | Elements(items: seq<Item>)

  /** `messageListResponse`. */
  datatype ListBody = ListBody(messages: Slice)

  predicate AllScanned(scans: seq<Scan>)
  {
    forall i :: 0 <= i < |scans| ==> scans[i].Scanned?
  }

  /** The items of a run of successful scans, in order. */
  function ScannedItems(scans: seq<Scan>): seq<Item>
    requires AllScanned(scans)
  {
    seq(|scans|, i requires 0 <= i < |scans| => scans[i].item)
  }

  /**
   * `listMessagesHandler`. The slice starts as `make(…, 0)`, so an empty
   * result is an empty array and never `null`; any query, scan or iteration
   * error gives 500.
   */
  method ListMessages(userId: Option<string>, query: Query) returns (reply: Reply<ListBody>)
    ensures reply.JsonReply? <==> HasUser(userId) && query.QueryRows? && AllScanned(query.scans) && !query.iterFailed
    ensures reply.JsonReply? ==> reply == JsonReply(StatusOK, ListBody(Elements(ScannedItems(query.scans))))
    ensures !reply.JsonReply? ==> reply == ErrorReply(StatusInternalServerError, InternalError)
  {
    if !HasUser(userId) || query.QueryFailed? {
      return ErrorReply(StatusInternalServerError, InternalError);
    }
    var scans := query.scans;
    var messages: seq<Item> := [];
    var i := 0;
    while i < |scans|
      invariant 0 <= i <= |scans|
      invariant AllScanned(scans[..i])
      invariant messages == ScannedItems(scans[..i])
    {
      match scans[i] {
        case ScanFailed =>
          return ErrorReply(StatusInternalServerError, InternalError);
        case Scanned(item) =>
          messages := messages + [item];
      }
      i := i + 1;
    }
    assert scans[..i] == scans;
    if query.iterFailed {
      return ErrorReply(StatusInternalServerError, InternalError);
    }
    reply := JsonReply(StatusOK, ListBody(Elements(messages)));
  }

  /** `GET /api/messages` against the table: the user's messages, oldest first, as a JSON array. */
  method ServeList(t: MessageTable, userId: string) returns (reply: Reply<ListBody>)
    requires userId != ""
    ensures reply == JsonReply(StatusOK, ListBody(Elements(t.Select(userId))))
  {
    var items := t.Select(userId);
    var scans := seq(|items|, i requires 0 <= i < |items| => Scanned(items[i]));
    reply := ListMessages(Some(userId), QueryRows(scans, false));
    assert ScannedItems(scans) == items;
  }

  /** The request's `body` field, or "" when it did not decode. */
  function RequestText(request: RequestBody): string
  {
    match request
    case Malformed => ""
    case BodyField(body) => body
  }

  /** `POST /api/messages` against the table: the row is inserted only when the ladder lets the request through. */
  method ServeCreate(t: MessageTable, userId: Option<string>, request: RequestBody, now: int) returns (run: Run)
    requires t.Valid()
    modifies t
    ensures t.Valid()
    ensures match run.call
            case Some(InsertCall(u, b)) => t.rows == old(t.rows) + [Row(old(t.nextId), u, b, now)] && t.nextId == old(t.nextId) + 1
            case _ => t.rows == old(t.rows) && t.nextId == old(t.nextId)
    ensures run == CreateMessage(userId, request, StoreOk(Item(old(t.nextId), RequestText(request), now)))
  {
    run := CreateMessage(userId, request, StoreOk(Item(t.nextId, RequestText(request), now)));
    match run.call {
      case Some(InsertCall(u, b)) =>
        var item := t.Insert(u, b, now);
      case _ =>
    }
  }

  /** `PUT /api/messages/{id}` against the table. */
  method ServeUpdate(t: MessageTable, userId: Option<string>, idParam: string, request: RequestBody) returns (run: Run)
    requires t.Valid()
    modifies t
    ensures t.Valid() && t.nextId == old(t.nextId)
    ensures match run.call
            case Some(UpdateCall(id, u, b)) =>
              && t.rows == UpdateRows(old(t.rows), id, u, b)
              && run == UpdateMessage(userId, idParam, request, UpdateOutcome(old(t.rows), id, u, b))
            case _ => t.rows == old(t.rows) && run == UpdateMessage(userId, idParam, request, StoreErr(ErrNoRows))
  {
    var probe := UpdateMessage(userId, idParam, request, StoreErr(ErrNoRows));
    match probe.call {
      case Some(UpdateCall(id, u, b)) =>
        var r := t.Update(id, u, b);
        run := UpdateMessage(userId, idParam, request, r);
      case _ =>
        run := probe;
    }
  }
}
