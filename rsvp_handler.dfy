/** The hosted RSVP function (backend/rsvp/index.py): method dispatch, the
    normalisation and validation of a submitted answer, the insert into the
    `rsvp_responses` table and the key-protected listing. */
module RsvpHandler {
  import opened Wrappers

  // ---------------------------------------------------------------------------
  // Requests, environment, replies
  // ---------------------------------------------------------------------------

  /** A decoded JSON value. */
  datatype Value =
    | Null
    | Bool(b: bool)
    | Num(n: int)
    | Str(s: string)
    | Arr(items: seq<Value>)
    | Obj(fields: map<string, Value>)

  /** The event's `body` entry: absent (read as '{}'), text that decodes to a
      JSON value, or text `json.loads` refuses. */
  datatype EventBody = NoBody | Parsed(json: Value) | Undecodable

  /** The invocation event. An absent `headers` entry is the empty map. */
  datatype Event = Event(httpMethod: Option<string>, headers: map<string, string>, body: EventBody)

  /** The two environment variables the function reads. */
  datatype Env = Env(databaseUrl: Option<string>, adminKey: Option<string>)

  /** When a row was created: not set, a database timestamp, or the text
      `isoformat()` made of one. */
  datatype Stamp = NoStamp | At(instant: int) | Iso(text: string)

  /** One row of `rsvp_responses`. The database is handed `guestsCount` and
      `dietaryRestrictions` as they came in the request. */
  datatype Row = Row(
    id: int,
    name: string,
    email: string,
    phone: string,
    attendance: string,
    guestsCount: Value,
    dietaryRestrictions: Value,
    otherDietary: string,
    message: string,
    createdAt: Stamp)

  datatype ReplyBody =
    | NoContent
    | Failure(error: string)
    | Saved(id: int)                  // {'success': True, 'id': ..., 'message': ...}
    | Listing(responses: seq<Row>)

  /** The function's answer: a status code and a JSON body, or an exception
      that escapes the handler. */
  datatype Reply = Reply(statusCode: int, body: ReplyBody) | Raised

  const NoDatabase := "Database configuration missing"
  const MissingFields := "Name, email and attendance are required"
  const BadAttendance := "Invalid attendance value"
  const Unauthorized := "Unauthorized"
  const NotAllowed := "Method not allowed"
  const DefaultAdminKey := "changeme"

  /** `event.get('httpMethod', 'GET')`. */
  function MethodOf(event: Event): string {
    event.httpMethod.GetOr("GET")
  }

  /** `not dsn` is false: the variable is set and non-empty. */
  predicate HasDatabase(env: Env) {
    env.databaseUrl.Some? && env.databaseUrl.value != ""
  }

  /** `os.environ.get('ADMIN_KEY', 'changeme')`. */
  function ExpectedKey(env: Env): string {
    env.adminKey.GetOr(DefaultAdminKey)
  }

  /** `event.get('headers', {}).get('X-Admin-Key', '')`. */
  function PresentedKey(event: Event): string {
    if "X-Admin-Key" in event.headers then event.headers["X-Admin-Key"] else ""
  }

  // ---------------------------------------------------------------------------
  // Python's str.strip()
  // ---------------------------------------------------------------------------

  /** The characters `str.isspace()` accepts. */
  const Whitespace: set<char> := {
    '\t', '\n', '\U{0B}', '\U{0C}', '\r', '\U{1C}', '\U{1D}', '\U{1E}', '\U{1F}', ' ',
    '\U{85}', '\U{A0}', '\U{1680}',
    '\U{2000}', '\U{2001}', '\U{2002}', '\U{2003}', '\U{2004}', '\U{2005}',
    '\U{2006}', '\U{2007}', '\U{2008}', '\U{2009}', '\U{200A}',
    '\U{2028}', '\U{2029}', '\U{202F}', '\U{205F}', '\U{3000}'}

  predicate IsSpace(c: char) {
    c in Whitespace
  }

  predicate AllSpace(s: string) {
    forall i :: 0 <= i < |s| ==> IsSpace(s[i])
  }

  function TrimStart(s: string): (r: string)
    ensures |r| <= |s| && r == s[|s| - |r|..]
    ensures r == [] || !IsSpace(r[0])
    ensures forall i :: 0 <= i < |s| - |r| ==> IsSpace(s[i])
  {
    if s != [] && IsSpace(s[0]) then TrimStart(s[1..]) else s
  }

  function TrimEnd(s: string): (r: string)
    ensures |r| <= |s| && r == s[..|r|]
    ensures r == [] || !IsSpace(r[|r| - 1])
    ensures forall i :: |r| <= i < |s| ==> IsSpace(s[i])
  {
    if s != [] && IsSpace(s[|s| - 1]) then TrimEnd(s[..|s| - 1]) else s
  }

  /** `s.strip()`: the longest infix of `s` that neither starts nor ends with
      whitespace (see StripInfix). */
  function Strip(s: string): (r: string)
    ensures r == [] || (!IsSpace(r[0]) && !IsSpace(r[|r| - 1]))
    ensures |r| <= |s|
  {
    TrimEnd(TrimStart(s))
  }

  /** What strip removes is whitespace on either side of what it keeps. */
  lemma StripInfix(s: string)
    ensures var k := |s| - |TrimStart(s)|; var r := Strip(s);
      && k + |r| <= |s| && r == s[k..k + |r|]
      && AllSpace(s[..k]) && AllSpace(s[k + |r|..])
  {
    var t := TrimStart(s);
    var r := TrimEnd(t);
    var k := |s| - |t|;
    assert r == s[k..k + |r|];
    var pre := s[..k];
    forall i | 0 <= i < |pre| ensures IsSpace(pre[i]) {
      assert pre[i] == s[i];
    }
    var post := s[k + |r|..];
    forall i | 0 <= i < |post| ensures IsSpace(post[i]) {
      assert post[i] == t[|r| + i];
    }
  }

  /** A field strips to nothing exactly when it is all whitespace. */
  lemma StripEmpty(s: string)
    ensures Strip(s) == "" <==> forall i :: 0 <= i < |s| ==> IsSpace(s[i])
  {
    var t := TrimStart(s);
    if Strip(s) == "" {
      forall i | 0 <= i < |s| ensures IsSpace(s[i]) {
        if i >= |s| - |t| {
          assert s[i] == t[i - (|s| - |t|)];
        }
      }
    } else {
      var r := Strip(s);
      assert r == TrimEnd(t) && r[0] == t[0] && t[0] == s[|s| - |t|];
    }
  }

  /** A value without leading or trailing whitespace is kept as it is. */
  lemma StripKeeps(s: string)
    requires s == [] || (!IsSpace(s[0]) && !IsSpace(s[|s| - 1]))
    ensures Strip(s) == s
  {
  }

  lemma StripIdempotent(s: string)
    ensures Strip(Strip(s)) == Strip(s)
  {
    var t := TrimStart(s);
    var r := TrimEnd(t);
    assert r == Strip(s);
    assert r == [] || (!IsSpace(r[0]) && !IsSpace(r[|r| - 1]));
    StripKeeps(r);
  }

  // ---------------------------------------------------------------------------
  // POST: normalisation and validation
  // ---------------------------------------------------------------------------

  /** `body.get(key, '').strip()`; None where the value is not a string and
      the call raises. */
  function TextField(body: map<string, Value>, key: string): Option<string> {
    if key !in body then Some("")
    else if body[key].Str? then Some(Strip(body[key].s))
    else None
  }

  /** `body.get(key, default)`. */
  function FieldOr(body: map<string, Value>, key: string, default: Value): Value {
    if key in body then body[key] else default
  }

  /** The normalised answer handed to the INSERT. */
  datatype Submission = Submission(
    name: string,
    email: string,
    phone: string,
    attendance: string,
    guestsCount: Value,
    dietaryRestrictions: Value,
    otherDietary: string,
    message: string)

  datatype PostCheck = Raises | Rejected(error: string) | Accepted(entry: Submission)

  /** Every field is read and stripped first; then the required fields are
      checked, then the attendance value. */
  function CheckPost(body: map<string, Value>): PostCheck {
    var name := TextField(body, "name");
    var email := TextField(body, "email");
    var phone := TextField(body, "phone");
    var attendance := TextField(body, "attendance");
    var guestsCount := FieldOr(body, "guestsCount", Num(1));
    var dietary := FieldOr(body, "dietaryRestrictions", Arr([]));
    var otherDietary := TextField(body, "otherDietary");
    var message := TextField(body, "message");
    if name.None? || email.None? || phone.None? || attendance.None?
       || otherDietary.None? || message.None?
    then Raises
    else if name.value == "" || email.value == "" || attendance.value == "" then
      Rejected(MissingFields)
    else if attendance.value != "yes" && attendance.value != "no" then
      Rejected(BadAttendance)
    else
      Accepted(Submission(name.value, email.value, phone.value, attendance.value,
                          guestsCount, dietary, otherDietary.value, message.value))
  }

  /** `json.loads(event.get('body', '{}'))`, when it is a JSON object. */
  function BodyObject(event: Event): Option<map<string, Value>> {
    match event.body
    case NoBody => Some(map[])
    case Parsed(v) => if v.Obj? then Some(v.fields) else None
    case Undecodable => None
  }

  function PostCheckOf(event: Event): PostCheck {
    var body := BodyObject(event);
    if body.None? then Raises else CheckPost(body.value)
  }

  /** The inserted row, with its `RETURNING id` and the database's timestamp. */
  function NewRow(id: int, entry: Submission, now: int): Row {
    Row(id, entry.name, entry.email, entry.phone, entry.attendance, entry.guestsCount,
        entry.dietaryRestrictions, entry.otherDietary, entry.message, At(now))
  }

  // ---------------------------------------------------------------------------
  // GET: timestamps as text
  // ---------------------------------------------------------------------------

  /** `if response['created_at']: response['created_at'] = ....isoformat()`. */
  function RenderRow(row: Row, iso: int -> string): Row {
    if row.createdAt.At? then row.(createdAt := Iso(iso(row.createdAt.instant))) else row
  }

  function Rendered(rows: seq<Row>, iso: int -> string): (r: seq<Row>)
    ensures |r| == |rows|
  {
    seq(|rows|, i requires 0 <= i < |rows| => RenderRow(rows[i], iso))
  }

  /** The listing is the table itself, row for row: only the timestamp's form
      changes, and a second pass changes nothing. */
  lemma RenderedKeepsRows(rows: seq<Row>, iso: int -> string)
    ensures forall i :: 0 <= i < |rows| ==>
      Rendered(rows, iso)[i].(createdAt := rows[i].createdAt) == rows[i]
    ensures forall i :: 0 <= i < |rows| && !rows[i].createdAt.At? ==>
      Rendered(rows, iso)[i] == rows[i]
    ensures Rendered(Rendered(rows, iso), iso) == Rendered(rows, iso)
  {
  }

  /** The loop over the fetched rows, rewriting each one in place. */
  method RenderTimestamps(a: array<Row>, iso: int -> string)
    modifies a
    ensures a[..] == Rendered(old(a[..]), iso)
  {
    var i := 0;
    while i < a.Length
      invariant 0 <= i <= a.Length
      invariant forall k :: 0 <= k < i ==> a[k] == RenderRow(old(a[k]), iso)
      invariant forall k :: i <= k < a.Length ==> a[k] == old(a[k])
    {
      if a[i].createdAt.At? {
        a[i] := a[i].(createdAt := Iso(iso(a[i].createdAt.instant)));
      }
      i := i + 1;
    }
  }

  // ---------------------------------------------------------------------------
  // The handler as a function of the request and the table
  // ---------------------------------------------------------------------------

  /** The reply to `event`, given the table and the id the next insert gets.
      `insertOk` says whether the database takes the INSERT: psycopg2 must be
      able to adapt every value and the columns must accept them; otherwise
      `cur.execute` raises and the exception escapes the handler. */
  function Respond(event: Event, env: Env, insertOk: bool, table: seq<Row>, nextId: int, iso: int -> string): Reply {
    var verb := MethodOf(event);
    if verb == "OPTIONS" then Reply(200, NoContent)
    else if !HasDatabase(env) then Reply(500, Failure(NoDatabase))
    else if verb == "POST" then
      match PostCheckOf(event)
      case Raises => Raised
      case Rejected(error) => Reply(400, Failure(error))
      case Accepted(_) => if insertOk then Reply(200, Saved(nextId)) else Raised
    else if verb == "GET" then
      if PresentedKey(event) != ExpectedKey(env) then Reply(401, Failure(Unauthorized))
      else Reply(200, Listing(Rendered(table, iso)))
    else Reply(405, Failure(NotAllowed))
  }

  /** Whether `event` inserts a row. */
  predicate Inserts(event: Event, env: Env, insertOk: bool) {
    MethodOf(event) == "POST" && HasDatabase(env) && PostCheckOf(event).Accepted? && insertOk
  }

  /** The table after `event`. */
  function Stored(event: Event, env: Env, insertOk: bool, table: seq<Row>, nextId: int, now: int): seq<Row> {
    if Inserts(event, env, insertOk) then table + [NewRow(nextId, PostCheckOf(event).entry, now)]
    else table
  }

  // ---------------------------------------------------------------------------
  // What the handler promises
  // ---------------------------------------------------------------------------

  /** A preflight is answered before the configuration or the database is looked at. */
  lemma OptionsFirst(event: Event, env: Env, insertOk: bool, table: seq<Row>, nextId: int, now: int, iso: int -> string)
    requires MethodOf(event) == "OPTIONS"
    ensures Respond(event, env, insertOk, table, nextId, iso) == Reply(200, NoContent)
    ensures Stored(event, env, insertOk, table, nextId, now) == table
  {
  }

  /** Without a database URL every other request is a 500 and stores nothing. */
  lemma MissingDatabase(event: Event, env: Env, insertOk: bool, table: seq<Row>, nextId: int, now: int, iso: int -> string)
    requires MethodOf(event) != "OPTIONS" && !HasDatabase(env)
    ensures Respond(event, env, insertOk, table, nextId, iso) == Reply(500, Failure(NoDatabase))
    ensures Stored(event, env, insertOk, table, nextId, now) == table
  {
  }

  /** A POST whose name, email or attendance strips to nothing is a 400 and
      stores nothing (when no field raises first). */
  lemma PostRequiresFields(body: map<string, Value>)
    requires forall k :: k in body && k in {"name", "email", "phone", "attendance", "otherDietary", "message"}
               ==> body[k].Str?
    requires TextField(body, "name") == Some("")
          || TextField(body, "email") == Some("")
          || TextField(body, "attendance") == Some("")
    ensures CheckPost(body) == Rejected(MissingFields)
  {
  }

  /** The required-field check comes first; only then an attendance other
      than "yes" or "no" is a 400 of its own. */
  lemma PostChecksAttendance(body: map<string, Value>)
    requires CheckPost(body) != Raises
    requires TextField(body, "name").value != "" && TextField(body, "email").value != ""
    requires TextField(body, "attendance").value != ""
    ensures CheckPost(body).Accepted?
        <==> TextField(body, "attendance").value in {"yes", "no"}
    ensures !CheckPost(body).Accepted? ==> CheckPost(body) == Rejected(BadAttendance)
  {
  }

  /** A rejected or raising POST inserts nothing; an accepted one that the
      database takes appends exactly one row, carrying the next id, and
      answers 200 with it; one the database refuses raises and stores nothing. */
  lemma PostOutcome(event: Event, env: Env, insertOk: bool, table: seq<Row>, nextId: int, now: int, iso: int -> string)
    requires MethodOf(event) == "POST" && HasDatabase(env)
    ensures !PostCheckOf(event).Accepted? ==> Stored(event, env, insertOk, table, nextId, now) == table
    ensures PostCheckOf(event).Rejected? ==>
      Respond(event, env, insertOk, table, nextId, iso) == Reply(400, Failure(PostCheckOf(event).error))
    ensures PostCheckOf(event).Accepted? && !insertOk ==>
      && Respond(event, env, insertOk, table, nextId, iso) == Raised
      && Stored(event, env, insertOk, table, nextId, now) == table
    ensures PostCheckOf(event).Accepted? && insertOk ==>
      && Respond(event, env, insertOk, table, nextId, iso) == Reply(200, Saved(nextId))
      && var after := Stored(event, env, insertOk, table, nextId, now);
      && |after| == |table| + 1 && after[..|table|] == table
      && after[|table|] == NewRow(nextId, PostCheckOf(event).entry, now)
      && after[|table|].id == nextId
  {
  }

  /** What an accepted POST stores: the stripped text fields, and the defaults
      one guest and no dietary tags for the two list/number fields. */
  lemma AcceptedDefaults(body: map<string, Value>)
    requires CheckPost(body).Accepted?
    ensures var e := CheckPost(body).entry;
      && e.name == Strip(body["name"].s) && e.email == Strip(body["email"].s)
      && e.attendance in {"yes", "no"}
      && ("guestsCount" !in body ==> e.guestsCount == Num(1))
      && ("dietaryRestrictions" !in body ==> e.dietaryRestrictions == Arr([]))
  {
  }

  /** Without an `email` key a POST never gets through. */
  lemma NoEmailRejected(body: map<string, Value>)
    requires "email" !in body
    ensures !CheckPost(body).Accepted?
    ensures CheckPost(body) != Raises ==> CheckPost(body) == Rejected(MissingFields)
  {
  }

  /** A GET with any other key than the expected one ("changeme" when
      ADMIN_KEY is unset) is a 401 with no rows; with the expected key it is
      the whole table. */
  lemma GetChecksKey(event: Event, env: Env, insertOk: bool, table: seq<Row>, nextId: int, now: int, iso: int -> string)
    requires MethodOf(event) == "GET" && HasDatabase(env)
    ensures PresentedKey(event) != ExpectedKey(env) ==>
      Respond(event, env, insertOk, table, nextId, iso) == Reply(401, Failure(Unauthorized))
    ensures PresentedKey(event) == ExpectedKey(env) ==>
      Respond(event, env, insertOk, table, nextId, iso) == Reply(200, Listing(Rendered(table, iso)))
    ensures env.adminKey.None? ==> ExpectedKey(env) == DefaultAdminKey
    ensures Stored(event, env, insertOk, table, nextId, now) == table
  {
  }

  /** Any other method is a 405 and stores nothing. */
  lemma OtherMethodsRefused(event: Event, env: Env, insertOk: bool, table: seq<Row>, nextId: int, now: int, iso: int -> string)
    requires MethodOf(event) !in {"OPTIONS", "POST", "GET"} && HasDatabase(env)
    ensures Respond(event, env, insertOk, table, nextId, iso) == Reply(405, Failure(NotAllowed))
    ensures Stored(event, env, insertOk, table, nextId, now) == table
  {
  }

  // ---------------------------------------------------------------------------
  // The deployed function and its table
  // ---------------------------------------------------------------------------

  /** Ids are below the next id to hand out and strictly increase along the table. */
  ghost predicate IdsOrdered(table: seq<Row>, nextId: int) {
    && (forall i :: 0 <= i < |table| ==> table[i].id < nextId)
    && (forall i, j :: 0 <= i < j < |table| ==> table[i].id < table[j].id)
  }

  /** The function with the `rsvp_responses` table behind it. */
  class RsvpFunction {
    var table: seq<Row>
    var nextId: int

    ghost predicate Valid()
      reads this
    {
      IdsOrdered(table, nextId)
    }

    constructor ()
      ensures Valid() && table == []
    {
      table := [];
      nextId := 1;
    }

    /** `handler(event, context)`, with `insertOk` whether the database takes
        an INSERT, `now` the database's clock for a new row's `created_at` and
        `iso` the `isoformat()` of a timestamp. */
    method Handle(event: Event, env: Env, insertOk: bool, now: int, iso: int -> string) returns (reply: Reply)
      requires Valid()
      modifies this
      ensures Valid()
      ensures reply == Respond(event, env, insertOk, old(table), old(nextId), iso)
      ensures table == Stored(event, env, insertOk, old(table), old(nextId), now)
      ensures nextId == if Inserts(event, env, insertOk) then old(nextId) + 1 else old(nextId)
    {
      var verb := event.httpMethod.GetOr("GET");
      if verb == "OPTIONS" {
        return Reply(200, NoContent);
      }
      if env.databaseUrl.None? || env.databaseUrl.value == "" {
        return Reply(500, Failure(NoDatabase));
      }
      if verb == "POST" {
        var check := PostCheckOf(event);
        match check {
          case Raises =>
            reply := Raised;
          case Rejected(error) =>
            reply := Reply(400, Failure(error));
          case Accepted(entry) =>
            if !insertOk {
              return Raised;
            }
            var id := nextId;
            table := table + [NewRow(id, entry, now)];
            nextId := nextId + 1;
            reply := Reply(200, Saved(id));
        }
      } else if verb == "GET" {
        var given := if "X-Admin-Key" in event.headers then event.headers["X-Admin-Key"] else "";
        if given != env.adminKey.GetOr(DefaultAdminKey) {
          return Reply(401, Failure(Unauthorized));
        }
        var fetched := table;
        var rows := new Row[|fetched|](i requires 0 <= i < |fetched| => fetched[i]);
        assert rows[..] == fetched;
        RenderTimestamps(rows, iso);
        reply := Reply(200, Listing(rows[..]));
      } else {
        reply := Reply(405, Failure(NotAllowed));
      }
    }
  }
}
