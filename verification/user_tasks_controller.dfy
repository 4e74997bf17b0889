/**
  `UserTasksController::listUserTasks`, the handler of
  `GET /api/users/{id}/tasks`: it checks the request in a fixed order (first
  failure wins), runs the search, and assembles the response envelope.
 */
module UserTasksController {
  import opened Wrappers
  import opened Dates
  import opened Entities
  import opened Pagination
  import opened TaskRepository

  /** What `new DateTimeImmutable($value)` does with a well-shaped date:
      `None` when it throws, otherwise the day it settles on, which may be a
      rolled-over one. */
  type DateLibrary = Date -> Option<Date>

  /** The query-string and route parameters. `page` and `limit` are the
      values after PHP's `(int)` cast (`None` when the parameter is absent,
      `Some(0)` for a non-numeric string); the others are the raw strings. */
  datatype Request = Request(
    id: int,
    page: Option<int>,
    limit: Option<int>,
    projectId: Option<string>,
    from: Option<string>,
    to: Option<string>)

  datatype DateField = FromField | ToField

  /** Every way the handler rejects a request. */
  datatype ApiError =
    | InvalidId
    | UserNotFound
    | ProjectIdNotDigits
    | ProjectIdNotPositive
    | DateMalformed(field: DateField)
    | DateNotReal(field: DateField)
    | FromAfterTo

  /** The HTTP status of an error response. */
  function StatusCode(e: ApiError): (code: int)
    ensures code == 404 <==> e == UserNotFound
    ensures code != 404 ==> code == 400
  {
    if e.UserNotFound? then 404 else 400
  }

  function FieldName(f: DateField): string {
    match f
    case FromField => "from"
    case ToField => "to"
  }

  /** The `error` text of an error response. */
  function Message(e: ApiError): string {
    match e
    case InvalidId => "El parámetro {id} debe ser un entero positivo."
    case UserNotFound => "Usuario no encontrado."
    case ProjectIdNotDigits => "project_id debe ser un entero positivo."
    case ProjectIdNotPositive => "project_id debe ser mayor a cero."
    case DateMalformed(f) => FieldName(f) + " debe tener formato YYYY-MM-DD."
    case DateNotReal(f) => FieldName(f) + " no es una fecha válida."
    case FromAfterTo => "from no puede ser mayor que to."
  }

  // ---------------------------------------------------------------------------
  // Individual parameter checks

  /** `project_id`: absent or empty means no filter; otherwise it must be all
      digits (`ctype_digit`) and then greater than zero. */
  function ValidateProjectId(raw: Option<string>): (r: Result<Option<int>, ApiError>)
    ensures raw.None? || raw == Some("") ==> r == Success(None)
    ensures r.Success? && r.value.Some? ==>
      && raw.Some? && AllDigits(raw.value)
      && r.value.value == DigitsValue(raw.value) && r.value.value > 0
    ensures r.Failure? <==>
      raw.Some? && raw.value != "" && (!AllDigits(raw.value) || DigitsValue(raw.value) == 0)
    ensures r.Failure? ==>
      r.error == if AllDigits(raw.value) then ProjectIdNotPositive else ProjectIdNotDigits
    ensures raw.Some? && raw.value != "" && AllDigits(raw.value) && DigitsValue(raw.value) > 0 ==>
      r == Success(Some(DigitsValue(raw.value)))
  {
    match raw
    case None => Success(None)
    case Some(s) =>
      if s == "" then Success(None)
      else if !AllDigits(s) then Failure(ProjectIdNotDigits)
      else if DigitsValue(s) <= 0 then Failure(ProjectIdNotPositive)
      else Success(Some(DigitsValue(s)))
  }

  /** Every positive project id, written in decimal with or without leading
      zeros, is accepted as that id. */
  lemma ProjectIdAcceptsDecimal(n: int, width: nat)
    requires n > 0
    ensures ValidateProjectId(Some(PadDigits(n, width))) == Success(Some(n))
  {
  }

  /** The `$parseDate` closure: absent or empty means no bound; a value that
      is not `YYYY-MM-DD` is malformed; otherwise the date library decides. */
  function ParseDate(raw: Option<string>, field: DateField, calendar: DateLibrary): (r: Result<Option<Date>, ApiError>)
    ensures raw.None? || raw == Some("") ==> r == Success(None)
    ensures r.Failure? ==> r.error == DateMalformed(field) || r.error == DateNotReal(field)
    ensures r == Failure(DateMalformed(field)) <==> raw.Some? && raw.value != "" && !IsDateShape(raw.value)
    ensures r.Success? && r.value.Some? ==>
      raw.Some? && IsDateShape(raw.value) && calendar(ParseDateShape(raw.value).value) == Some(r.value.value)
    ensures raw.Some? && IsDateShape(raw.value) ==>
      r == match calendar(ParseDateShape(raw.value).value)
           case None => Failure(DateNotReal(field))
           case Some(d) => Success(Some(d))
  {
    match raw
    case None => Success(None)
    case Some(s) =>
      if s == "" then Success(None)
      else
        match ParseDateShape(s)
        case None => Failure(DateMalformed(field))
        case Some(d) =>
          match calendar(d)
          case None => Failure(DateNotReal(field))
          case Some(day) => Success(Some(day))
  }

  /** When the date library keeps the day as written, the echoed filter
      repeats the client's string exactly. */
  lemma DateEchoRepeatsInput(s: string, field: DateField, calendar: DateLibrary)
    requires s != "" && IsDateShape(s)
    requires calendar(ParseDateShape(s).value) == ParseDateShape(s)
    ensures ParseDate(Some(s), field, calendar).Success?
    ensures FormatDate(ParseDate(Some(s), field, calendar).value.value) == s
  {
    ParseThenFormat(s);
  }

  /** The validated optional filters. */
  datatype Filters = Filters(projectId: Option<int>, from: Option<Date>, to: Option<Date>)

  /** `project_id`, then `from`, then `to`, then `from <= to`; the first
      failure is reported. */
  function ValidateFilters(req: Request, calendar: DateLibrary): (r: Result<Filters, ApiError>)
    ensures r.Success? ==>
      && ValidateProjectId(req.projectId) == Success(r.value.projectId)
      && ParseDate(req.from, FromField, calendar) == Success(r.value.from)
      && ParseDate(req.to, ToField, calendar) == Success(r.value.to)
      && (r.value.from.Some? && r.value.to.Some? ==> AtOrBefore(r.value.from.value, r.value.to.value))
  {
    match ValidateProjectId(req.projectId)
    case Failure(e) => Failure(e)
    case Success(projectId) =>
      match ParseDate(req.from, FromField, calendar)
      case Failure(e) => Failure(e)
      case Success(from) =>
        match ParseDate(req.to, ToField, calendar)
        case Failure(e) => Failure(e)
        case Success(to) =>
          if from.Some? && to.Some? && Before(to.value, from.value) then
            Failure(FromAfterTo)
          else if from.Some? && to.Some? then
            NotBeforeIsAtOrBefore(from.value, to.value);
            Success(Filters(projectId, from, to))
          else
            Success(Filters(projectId, from, to))
  }

  // ---------------------------------------------------------------------------
  // The response envelope

  datatype UserInfo = UserInfo(id: int, name: string)

  /** The applied filters echoed back: dates as `Y-m-d`, the project as an
      integer, each absent when not filtering. */
  datatype FiltersEcho = FiltersEcho(from: Option<string>, to: Option<string>, projectId: Option<int>)

  datatype Meta = Meta(page: int, limit: int, total: nat, totalPages: nat, filters: FiltersEcho)

  datatype Payload = Payload(user: UserInfo, meta: Meta, items: seq<Item>)

  function FormatOptionalDate(d: Option<Date>): Option<string> {
    match d
    case None => None
    case Some(day) => Some(FormatDate(day))
  }

  /** `(int) $request->query->get('page', 1)`. */
  function PageParam(raw: Option<int>): int {
    match raw
    case None => 1
    case Some(n) => n
  }

  /** `(int) $request->query->get('limit', 20)`. */
  function LimitParam(raw: Option<int>): int {
    match raw
    case None => 20
    case Some(n) => n
  }

  /** An absent `limit` serves 20 rows per page, but a non-numeric one (cast
      to 0) serves 1; an absent or non-numeric `page` serves page 1. */
  lemma AppliedDefaults(raw: Option<int>)
    ensures raw.None? ==> ClampLimit(LimitParam(raw)) == 20
    ensures raw == Some(0) ==> ClampLimit(LimitParam(raw)) == 1
    ensures raw.None? || raw == Some(0) ==> ClampPage(PageParam(raw)) == 1
  {
  }

  /** The search filters of a validated request. */
  function CriteriaOf(id: int, f: Filters): Criteria {
    Criteria(id, f.from, f.to, f.projectId)
  }

  /** The 200 response for validated filters: the user, the pagination
      metadata with the echoed filters, and the page of items. */
  function Envelope(id: int, name: string, f: Filters, page: int, limit: int, store: Store): (p: Payload)
    requires ValidStore(store)
    ensures p.user == UserInfo(id, name)
    ensures p.meta.page >= 1 && p.meta.page == ClampPage(page)
    ensures 1 <= p.meta.limit <= MaxLimit && p.meta.limit == ClampLimit(limit)
    ensures p.meta.total == |MatchingRows(store, CriteriaOf(id, f))|
    ensures FewestPages(p.meta.total, p.meta.limit, p.meta.totalPages)
    ensures p.meta.filters == FiltersEcho(FormatOptionalDate(f.from), FormatOptionalDate(f.to), f.projectId)
    ensures p.items == SearchUserTasks(store, CriteriaOf(id, f), p.meta.page, p.meta.limit).items
  {
    var result := SearchUserTasks(store, CriteriaOf(id, f), ClampPage(page), ClampLimit(limit));
    var safeLimit := SafeLimit(limit);
    var meta := Meta(
      ClampPage(page), safeLimit, result.total, CeilDiv(result.total, safeLimit),
      FiltersEcho(FormatOptionalDate(f.from), FormatOptionalDate(f.to), f.projectId));
    Payload(UserInfo(id, name), meta, result.items)
  }

  /** `listUserTasks`. */
  function ListUserTasks(req: Request, users: map<int, string>, store: Store, calendar: DateLibrary): (r: Result<Payload, ApiError>)
    requires ValidStore(store)
    ensures req.id <= 0 ==> r == Failure(InvalidId)
    ensures req.id > 0 && req.id !in users ==> r == Failure(UserNotFound)
    ensures req.id > 0 && req.id in users && ValidateFilters(req, calendar).Failure? ==>
      r == Failure(ValidateFilters(req, calendar).error)
    ensures r.Success? <==> req.id > 0 && req.id in users && ValidateFilters(req, calendar).Success?
    ensures r.Success? ==> r.value.user == UserInfo(req.id, users[req.id])
    ensures r.Success? ==>
      var f := ValidateFilters(req, calendar).value;
      var m := r.value.meta;
      && m.page >= 1 && m.page == ClampPage(PageParam(req.page))
      && 1 <= m.limit <= MaxLimit && m.limit == ClampLimit(LimitParam(req.limit))
      && m.total == |MatchingRows(store, CriteriaOf(req.id, f))|
      && FewestPages(m.total, m.limit, m.totalPages)
      && m.filters == FiltersEcho(FormatOptionalDate(f.from), FormatOptionalDate(f.to), f.projectId)
      && r.value.items == SearchUserTasks(store, CriteriaOf(req.id, f), m.page, m.limit).items
  {
    if req.id <= 0 then
      Failure(InvalidId)
    else if req.id !in users then
      Failure(UserNotFound)
    else
      match ValidateFilters(req, calendar)
      case Failure(e) => Failure(e)
      case Success(f) =>
        Success(Envelope(req.id, users[req.id], f, PageParam(req.page), LimitParam(req.limit), store))
  }

  // ---------------------------------------------------------------------------
  // Precedence of the checks

  /** The position of the check that produces each error, in the order the
      handler runs them. */
  function StageOf(e: ApiError): nat {
    match e
    case InvalidId => 0
    case UserNotFound => 1
    case ProjectIdNotDigits => 2
    case ProjectIdNotPositive => 2
    case DateMalformed(f) => if f == FromField then 3 else 4
    case DateNotReal(f) => if f == FromField then 3 else 4
    case FromAfterTo => 5
  }

  /** Check number `k`, judged on its own, rejects the request. */
  predicate Rejects(req: Request, users: map<int, string>, calendar: DateLibrary, k: nat) {
    if k == 0 then req.id <= 0
    else if k == 1 then req.id !in users
    else if k == 2 then ValidateProjectId(req.projectId).Failure?
    else if k == 3 then ParseDate(req.from, FromField, calendar).Failure?
    else if k == 4 then ParseDate(req.to, ToField, calendar).Failure?
    else if k == 5 then
      var from, to := ParseDate(req.from, FromField, calendar), ParseDate(req.to, ToField, calendar);
      && from.Success? && to.Success? && from.value.Some? && to.value.Some?
      && Before(to.value.value, from.value.value)
    else false
  }

  /** First failure wins: the request fails exactly when some check rejects
      it, and the error reported is the earliest rejecting check's own
      error. The search runs only when every check passes. */
  lemma FirstFailureWins(req: Request, users: map<int, string>, store: Store, calendar: DateLibrary)
    requires ValidStore(store)
    ensures ListUserTasks(req, users, store, calendar).Failure? <==>
      exists k :: 0 <= k < 6 && Rejects(req, users, calendar, k)
    ensures ListUserTasks(req, users, store, calendar).Failure? ==>
      var e := ListUserTasks(req, users, store, calendar).error;
      && Rejects(req, users, calendar, StageOf(e))
      && (forall k :: 0 <= k < StageOf(e) ==> !Rejects(req, users, calendar, k))
      && (StageOf(e) == 2 ==> e == ValidateProjectId(req.projectId).error)
      && (StageOf(e) == 3 ==> e == ParseDate(req.from, FromField, calendar).error)
      && (StageOf(e) == 4 ==> e == ParseDate(req.to, ToField, calendar).error)
  {
    var r := ListUserTasks(req, users, store, calendar);
    var pid := ValidateProjectId(req.projectId);
    var from := ParseDate(req.from, FromField, calendar);
    var to := ParseDate(req.to, ToField, calendar);
    if r.Failure? {
      var e := r.error;
      if req.id <= 0 {
        assert Rejects(req, users, calendar, 0);
      } else if req.id !in users {
        assert Rejects(req, users, calendar, 1);
      } else if pid.Failure? {
        assert Rejects(req, users, calendar, 2);
      } else if from.Failure? {
        assert Rejects(req, users, calendar, 3);
      } else if to.Failure? {
        assert Rejects(req, users, calendar, 4);
      } else {
        assert Rejects(req, users, calendar, 5);
      }
    } else {
      assert ValidateFilters(req, calendar).Success?;
      forall k | 0 <= k < 6 ensures !Rejects(req, users, calendar, k) {
        var f := ValidateFilters(req, calendar).value;
        if k == 5 && f.from.Some? && f.to.Some? {
          NotBeforeIsAtOrBefore(f.from.value, f.to.value);
        }
      }
    }
  }

  /** A well-formed id with no user is answered 404 whatever the query
      string says, before any filter is looked at. */
  lemma UnknownUserBeatsBadFilters(req: Request, users: map<int, string>, store: Store, calendar: DateLibrary)
    requires ValidStore(store)
    requires req.id > 0 && req.id !in users
    ensures forall p, l, pid, from, to ::
      StatusCode(ListUserTasks(Request(req.id, p, l, pid, from, to), users, store, calendar).error) == 404
  {
  }

  /** A bad `project_id` is reported even when the dates are bad too. */
  lemma ProjectIdBeatsDates(req: Request, users: map<int, string>, store: Store, calendar: DateLibrary)
    requires ValidStore(store)
    requires req.id > 0 && req.id in users
    requires ValidateProjectId(req.projectId).Failure?
    ensures ListUserTasks(req, users, store, calendar) == Failure(ValidateProjectId(req.projectId).error)
  {
  }

  /** Once the id, the user and each parameter pass, the request is
      rejected exactly when both bounds are given and `from` is strictly
      after `to`; otherwise it is answered 200. */
  lemma OnlyLaterFromRejected(req: Request, users: map<int, string>, store: Store, calendar: DateLibrary)
    requires ValidStore(store)
    requires req.id > 0 && req.id in users && ValidateProjectId(req.projectId).Success?
    requires ParseDate(req.from, FromField, calendar).Success? && ParseDate(req.to, ToField, calendar).Success?
    ensures var from, to := ParseDate(req.from, FromField, calendar).value, ParseDate(req.to, ToField, calendar).value;
      && (ListUserTasks(req, users, store, calendar) == Failure(FromAfterTo) <==>
            from.Some? && to.Some? && Before(to.value, from.value))
      && (ListUserTasks(req, users, store, calendar).Success? <==>
            !(from.Some? && to.Some? && Before(to.value, from.value)))
  {
  }

  /** Equal bounds are accepted. */
  lemma EqualBoundsAccepted(req: Request, users: map<int, string>, store: Store, calendar: DateLibrary)
    requires ValidStore(store)
    requires req.id > 0 && req.id in users && ValidateProjectId(req.projectId).Success?
    requires ParseDate(req.from, FromField, calendar).Success? && ParseDate(req.to, ToField, calendar).Success?
    requires ParseDate(req.from, FromField, calendar) == ParseDate(req.to, ToField, calendar)
    ensures ListUserTasks(req, users, store, calendar).Success?
  {
    var from := ParseDate(req.from, FromField, calendar).value;
    if from.Some? {
      NotBeforeIsAtOrBefore(from.value, from.value);
    }
  }
}
