/** The assignment API client of the frontend: the list item it receives, the due-date
    status and colour it derives from an item, the query string it builds for the listing
    endpoint, and the message of the error it throws when a call fails. */
module AssignmentService {
  import opened Common
  import opened Strings

  /** The base URL when `VITE_API_BASE_URL` is not set. */
  const API_BASE_DEFAULT: string := "http://localhost:8000"
  /** The largest `days_until_due` that still counts as due soon. */
  const DUE_SOON_DAYS: int := 3

  /** `API_BASE`: the configured base URL, unless it is unset or empty. */
  function ApiBase(configured: Option<string>): (r: string)
    ensures TruthyOptStr(configured) ==> r == configured.value
    ensures !TruthyOptStr(configured) ==> r == API_BASE_DEFAULT
  {
    OrStr(configured, API_BASE_DEFAULT)
  }

  /** `days_until_due?: number` as a parsed response holds it: missing from the JSON
      (`undefined`), the `null` the backend writes for a missing count, or a number. */
  datatype DayCount = Undefined | Null | Num(n: int) {
    /** The number arithmetic and comparisons read from a defined count: `null` is 0. */
    function ToNumber(): int
      requires !Undefined?
    {
      if Null? then 0 else n
    }

    /** The text a template literal writes for a defined count. */
    function Text(): string
      requires !Undefined?
    {
      if Null? then "null" else IntToString(n)
    }
  }

  /** `AssignmentListItem`; the instant is in milliseconds. */
  datatype AssignmentListItem = AssignmentListItem(
    id: int, title: string, dueDate: int, courseId: int, isOverdue: bool, daysUntilDue: DayCount)

  datatype DueStatus = Overdue | DueSoon | Upcoming {
    /** The string the status is passed around as. */
    function Name(): string {
      match this
      case Overdue => "overdue"
      case DueSoon => "due-soon"
      case Upcoming => "upcoming"
    }
  }

  /** The three names are distinct. */
  lemma StatusNamesDistinct(a: DueStatus, b: DueStatus)
    ensures a.Name() == b.Name() <==> a == b
  {
  }

  /** `getDueDateStatus`: overdue exactly when the item says so; due soon when it is not
      overdue and at most three days remain; upcoming otherwise, including an item without
      a day count. The `!== undefined` test lets `null` through, and `null <= 3` holds. */
  function GetDueDateStatus(item: AssignmentListItem): (s: DueStatus)
    ensures s == Overdue <==> item.isOverdue
    ensures s == DueSoon <==> !item.isOverdue && (item.daysUntilDue.Null?
                                                  || (item.daysUntilDue.Num? && item.daysUntilDue.n <= DUE_SOON_DAYS))
    ensures s == Upcoming <==> !item.isOverdue && (item.daysUntilDue.Undefined?
                                                   || (item.daysUntilDue.Num? && item.daysUntilDue.n > DUE_SOON_DAYS))
  {
    if item.isOverdue then Overdue
    else if !item.daysUntilDue.Undefined? && item.daysUntilDue.ToNumber() <= DUE_SOON_DAYS then DueSoon
    else Upcoming
  }

  datatype ChipColor = ErrorColor | WarningColor | SuccessColor

  /** `getDueDateColor`: overdue is error, due-soon is warning, any other string success. */
  function GetDueDateColor(status: string): (c: ChipColor)
    ensures c == ErrorColor <==> status == Overdue.Name()
    ensures c == WarningColor <==> status == DueSoon.Name()
    ensures c == SuccessColor <==> status != Overdue.Name() && status != DueSoon.Name()
  {
    if status == "overdue" then ErrorColor
    else if status == "due-soon" then WarningColor
    else SuccessColor
  }

  /** The colour of an item's status: red for overdue, amber for at most three days left. */
  lemma ItemColor(item: AssignmentListItem)
    ensures GetDueDateColor(GetDueDateStatus(item).Name()) == ErrorColor <==> item.isOverdue
    ensures GetDueDateColor(GetDueDateStatus(item).Name()) == WarningColor <==>
              !item.isOverdue && !item.daysUntilDue.Undefined? && item.daysUntilDue.ToNumber() <= DUE_SOON_DAYS
  {
  }

  // ----- the query string of getAllAssignments -----

  /** `AssignmentFilters`; every field is optional. */
  datatype AssignmentFilters = AssignmentFilters(
    status: Option<string>, courseId: Option<int>, search: Option<string>, sortBy: Option<string>,
    order: Option<string>, limit: Option<int>, offset: Option<int>)

  const NO_FILTERS: AssignmentFilters := AssignmentFilters(None, None, None, None, None, None, None)

  /** The query keys, declared in the order the code appends them. */
  datatype Key = StatusKey | CourseIdKey | SearchKey | SortByKey | OrderKey | LimitKey | OffsetKey {
    function Name(): string {
      match this
      case StatusKey => "status"
      case CourseIdKey => "course_id"
      case SearchKey => "search"
      case SortByKey => "sort_by"
      case OrderKey => "order"
      case LimitKey => "limit"
      case OffsetKey => "offset"
    }

    /** The position of the key's append in the code. */
    function Rank(): nat {
      match this
      case StatusKey => 0
      case CourseIdKey => 1
      case SearchKey => 2
      case SortByKey => 3
      case OrderKey => 4
      case LimitKey => 5
      case OffsetKey => 6
    }
  }

  /** The value a truthy string filter is sent with. */
  function StrParam(o: Option<string>): (r: Option<string>)
    ensures r.Some? <==> TruthyOptStr(o)
    ensures r.Some? ==> r.value == o.value
  {
    if TruthyOptStr(o) then o else None
  }

  /** The value a truthy number filter is sent with: its decimal text; 0 is falsy. */
  function IntParam(o: Option<int>): (r: Option<string>)
    ensures r.Some? <==> TruthyOptInt(o)
    ensures r.Some? ==> r.value == IntToString(o.value)
  {
    if TruthyOptInt(o) then Some(IntToString(o.value)) else None
  }

  /** The value sent for `key`, or None when the key is left out: no filters at all, or a
      falsy filter value. */
  function SentValue(filters: Option<AssignmentFilters>, key: Key): Option<string> {
    if filters.None? then None
    else
      var f := filters.value;
      match key
      case StatusKey => StrParam(f.status)
      case CourseIdKey => IntParam(f.courseId)
      case SearchKey => StrParam(f.search)
      case SortByKey => StrParam(f.sortBy)
      case OrderKey => StrParam(f.order)
      case LimitKey => IntParam(f.limit)
      case OffsetKey => IntParam(f.offset)
  }

  /** An offset of 0 is falsy and never sent, and so is a limit of 0. */
  lemma ZeroOffsetOmitted(f: AssignmentFilters)
    ensures f.offset == Some(0) ==> SentValue(Some(f), OffsetKey).None?
    ensures f.limit == Some(0) ==> SentValue(Some(f), LimitKey).None?
  {
  }

  datatype Param = Param(key: Key, value: string)

  /** Every key, in the order the code appends them. */
  const ALL_KEYS: seq<Key> := [StatusKey, CourseIdKey, SearchKey, SortByKey, OrderKey, LimitKey, OffsetKey]

  /** The parameter of `key`, if its filter is truthy. */
  function Piece(filters: Option<AssignmentFilters>, key: Key): seq<Param> {
    match SentValue(filters, key)
    case None => []
    case Some(v) => [Param(key, v)]
  }

  /** The parameters of the truthy filters among `keys`, in the order of `keys`. */
  function SentParams(filters: Option<AssignmentFilters>, keys: seq<Key>): seq<Param> {
    if keys == [] then [] else Piece(filters, keys[0]) + SentParams(filters, keys[1..])
  }

  /** Every parameter belongs to a listed key and carries that key's filter value. */
  lemma {:induction false} SentParamsValues(filters: Option<AssignmentFilters>, keys: seq<Key>)
    ensures forall i :: 0 <= i < |SentParams(filters, keys)| ==>
              SentParams(filters, keys)[i].key in keys
              && SentValue(filters, SentParams(filters, keys)[i].key) == Some(SentParams(filters, keys)[i].value)
  {
    if keys != [] {
      SentParamsValues(filters, keys[1..]);
      var rest := SentParams(filters, keys[1..]);
      var ps := SentParams(filters, keys);
      var piece := Piece(filters, keys[0]);
      forall i | 0 <= i < |ps| ensures ps[i].key in keys && SentValue(filters, ps[i].key) == Some(ps[i].value) {
        if i >= |piece| {
          assert ps[i] == rest[i - |piece|];
          assert rest[i - |piece|].key in keys[1..];
        }
      }
    }
  }

  /** Keys listed in increasing rank give parameters in increasing rank. */
  lemma {:induction false} SentParamsOrdered(filters: Option<AssignmentFilters>, keys: seq<Key>)
    requires forall i, j :: 0 <= i < j < |keys| ==> keys[i].Rank() < keys[j].Rank()
    ensures forall i, j :: 0 <= i < j < |SentParams(filters, keys)| ==>
              SentParams(filters, keys)[i].key.Rank() < SentParams(filters, keys)[j].key.Rank()
  {
    if keys != [] {
      SentParamsOrdered(filters, keys[1..]);
      SentParamsValues(filters, keys[1..]);
      var rest := SentParams(filters, keys[1..]);
      forall i | 0 <= i < |rest| ensures keys[0].Rank() < rest[i].key.Rank() {
        var j :| 0 <= j < |keys[1..]| && keys[1..][j] == rest[i].key;
        assert keys[j + 1] == rest[i].key;
      }
    }
  }

  /** A listed key whose filter is truthy is sent with that filter's value. */
  lemma {:induction false} SentParamsPresent(filters: Option<AssignmentFilters>, keys: seq<Key>, k: Key)
    requires k in keys && SentValue(filters, k).Some?
    ensures Param(k, SentValue(filters, k).value) in SentParams(filters, keys)
  {
    if k == keys[0] {
      assert SentParams(filters, keys)[0] == Param(k, SentValue(filters, k).value);
    } else {
      assert k in keys[1..];
      SentParamsPresent(filters, keys[1..], k);
    }
  }

  /** The query keys of `getAllAssignments` come in the fixed order, each at most once; a
      key is present exactly when its filter is truthy, and carries that filter's value. */
  lemma QueryParamsSpec(filters: Option<AssignmentFilters>)
    ensures var ps := SentParams(filters, ALL_KEYS);
            (forall i, j :: 0 <= i < j < |ps| ==> ps[i].key.Rank() < ps[j].key.Rank())
            && (forall i :: 0 <= i < |ps| ==> SentValue(filters, ps[i].key) == Some(ps[i].value))
            && (forall k: Key :: SentValue(filters, k).Some? <==> exists i :: 0 <= i < |ps| && ps[i].key == k)
  {
    SentParamsValues(filters, ALL_KEYS);
    SentParamsOrdered(filters, ALL_KEYS);
    forall k: Key
      ensures SentValue(filters, k).Some? <==>
                exists i :: 0 <= i < |SentParams(filters, ALL_KEYS)| && SentParams(filters, ALL_KEYS)[i].key == k
    {
      assert ALL_KEYS[k.Rank()] == k;
      if SentValue(filters, k).Some? {
        SentParamsPresent(filters, ALL_KEYS, k);
      }
    }
  }

  /** The appends of `getAllAssignments` on a fresh `URLSearchParams`. */
  method BuildParams(filters: Option<AssignmentFilters>) returns (params: seq<Param>)
    ensures params == SentParams(filters, ALL_KEYS)
  {
    params := [];
    if filters.Some? {
      var f := filters.value;
      if TruthyOptStr(f.status) { params := params + [Param(StatusKey, f.status.value)]; }
      assert params == Piece(filters, StatusKey);
      var p := params;
      if TruthyOptInt(f.courseId) { params := params + [Param(CourseIdKey, IntToString(f.courseId.value))]; }
      assert params == p + Piece(filters, CourseIdKey);
      p := params;
      if TruthyOptStr(f.search) { params := params + [Param(SearchKey, f.search.value)]; }
      assert params == p + Piece(filters, SearchKey);
      p := params;
      if TruthyOptStr(f.sortBy) { params := params + [Param(SortByKey, f.sortBy.value)]; }
      assert params == p + Piece(filters, SortByKey);
      p := params;
      if TruthyOptStr(f.order) { params := params + [Param(OrderKey, f.order.value)]; }
      assert params == p + Piece(filters, OrderKey);
      p := params;
      if TruthyOptInt(f.limit) { params := params + [Param(LimitKey, IntToString(f.limit.value))]; }
      assert params == p + Piece(filters, LimitKey);
      p := params;
      if TruthyOptInt(f.offset) { params := params + [Param(OffsetKey, IntToString(f.offset.value))]; }
      assert params == p + Piece(filters, OffsetKey);
    }
    SentParamsUnfold(filters);
  }

  /** The parameters of `a + b` are those of `a` followed by those of `b`. */
  lemma {:induction false} SentParamsAppend(filters: Option<AssignmentFilters>, a: seq<Key>, b: seq<Key>)
    ensures SentParams(filters, a + b) == SentParams(filters, a) + SentParams(filters, b)
  {
    if a == [] {
      assert a + b == b;
    } else {
      assert (a + b)[1..] == a[1..] + b;
      SentParamsAppend(filters, a[1..], b);
    }
  }

  /** One more key appends that key's piece. */
  lemma SentParamsSnoc(filters: Option<AssignmentFilters>, keys: seq<Key>, k: Key)
    ensures SentParams(filters, keys + [k]) == SentParams(filters, keys) + Piece(filters, k)
  {
    SentParamsAppend(filters, keys, [k]);
    assert SentParams(filters, [k]) == Piece(filters, k) + SentParams(filters, []);
  }

  /** The reference list spelled out key by key. */
  lemma SentParamsUnfold(filters: Option<AssignmentFilters>)
    ensures SentParams(filters, ALL_KEYS)
            == Piece(filters, StatusKey) + Piece(filters, CourseIdKey) + Piece(filters, SearchKey)
               + Piece(filters, SortByKey) + Piece(filters, OrderKey) + Piece(filters, LimitKey)
               + Piece(filters, OffsetKey)
  {
    var k0: seq<Key> := [];
    var k1 := k0 + [StatusKey];
    var k2 := k1 + [CourseIdKey];
    var k3 := k2 + [SearchKey];
    var k4 := k3 + [SortByKey];
    var k5 := k4 + [OrderKey];
    var k6 := k5 + [LimitKey];
    var k7 := k6 + [OffsetKey];
    assert k7 == ALL_KEYS;
    SentParamsSnoc(filters, k0, StatusKey);
    assert SentParams(filters, k1) == Piece(filters, StatusKey);
    SentParamsSnoc(filters, k1, CourseIdKey);
    SentParamsSnoc(filters, k2, SearchKey);
    SentParamsSnoc(filters, k3, SortByKey);
    SentParamsSnoc(filters, k4, OrderKey);
    SentParamsSnoc(filters, k5, LimitKey);
    SentParamsSnoc(filters, k6, OffsetKey);
  }

  // ----- application/x-www-form-urlencoded serialisation -----

  /** The bytes the form serialiser leaves as they are. */
  predicate FormSafe(c: char) {
    'a' <= c <= 'z' || 'A' <= c <= 'Z' || '0' <= c <= '9' || c == '*' || c == '-' || c == '.' || c == '_'
  }

  /** A character the serialiser can emit. */
  predicate EncodedChar(c: char) {
    FormSafe(c) || c == '+' || c == '%'
  }

  function HexDigit(n: nat): (c: char)
    requires n < 16
    ensures FormSafe(c)
  {
    if n < 10 then (('0' as int) + n) as char else (('A' as int) + n - 10) as char
  }

  /** The UTF-8 encoding of a character. */
  function Utf8(c: char): (bytes: seq<nat>)
    ensures 1 <= |bytes| <= 4
    ensures forall i :: 0 <= i < |bytes| ==> bytes[i] < 256
    ensures (c as int) < 0x80 ==> bytes == [c as int]
  {
    var n := c as int;
    if n < 0x80 then [n]
    else if n < 0x800 then [0xC0 + n / 64, 0x80 + n % 64]
    else if n < 0x10000 then [0xE0 + n / 4096, 0x80 + (n / 64) % 64, 0x80 + n % 64]
    else [0xF0 + n / 262144, 0x80 + (n / 4096) % 64, 0x80 + (n / 64) % 64, 0x80 + n % 64]
  }

  /** `%XX` with upper-case hexadecimal digits for each byte. */
  function PercentBytes(bytes: seq<nat>): (r: string)
    requires forall i :: 0 <= i < |bytes| ==> bytes[i] < 256
    ensures forall i :: 0 <= i < |r| ==> EncodedChar(r[i])
  {
    if bytes == [] then "" else ['%', HexDigit(bytes[0] / 16), HexDigit(bytes[0] % 16)] + PercentBytes(bytes[1..])
  }

  /** One character of a serialised key or value: a space is '+', a safe character stays,
      every other character is percent-encoded. */
  function EncodeChar(c: char): (r: string)
    ensures forall i :: 0 <= i < |r| ==> EncodedChar(r[i])
  {
    if c == ' ' then "+" else if FormSafe(c) then [c] else PercentBytes(Utf8(c))
  }

  /** The serialisation of one key or value. */
  function FormEncode(s: string): (r: string)
    ensures forall i :: 0 <= i < |r| ==> EncodedChar(r[i])
  {
    if s == [] then "" else EncodeChar(s[0]) + FormEncode(s[1..])
  }

  /** Text made of safe characters is sent verbatim. */
  lemma {:induction false} FormEncodeSafe(s: string)
    requires forall i :: 0 <= i < |s| ==> FormSafe(s[i])
    ensures FormEncode(s) == s
  {
    if s != [] {
      FormEncodeSafe(s[1..]);
      assert [s[0]] + s[1..] == s;
    }
  }

  /** Number filters are sent as their plain decimal text. */
  lemma NumbersSentVerbatim(i: int)
    ensures FormEncode(IntToString(i)) == IntToString(i)
  {
    var s := IntToString(i);
    assert forall k :: 0 <= k < |s| ==> FormSafe(s[k]) by {
      if i < 0 {
        var t := NatToString(-i);
        assert s == "-" + t;
        forall k | 0 <= k < |s| ensures FormSafe(s[k]) {
          if k > 0 { assert s[k] == t[k - 1]; }
        }
      }
    }
    FormEncodeSafe(s);
  }

  /** `key=value` of one parameter. */
  function PairText(p: Param): string {
    FormEncode(p.key.Name()) + "=" + FormEncode(p.value)
  }

  /** `params.toString()`: the serialised pairs joined by '&'. */
  function QueryString(params: seq<Param>): string {
    Join(seq(|params|, i requires 0 <= i < |params| => PairText(params[i])), "&")
  }

  /** The URL `getAllAssignments` requests. */
  function AllAssignmentsUrl(apiBase: string, params: seq<Param>): string {
    var q := QueryString(params);
    apiBase + "/assignments/" + (if q != "" then "?" + q else "")
  }

  /** The URL carries a query exactly when at least one parameter was appended. */
  lemma UrlQueryIffParams(apiBase: string, params: seq<Param>)
    ensures params == [] ==> AllAssignmentsUrl(apiBase, params) == apiBase + "/assignments/"
    ensures params != [] ==> AllAssignmentsUrl(apiBase, params) == apiBase + "/assignments/?" + QueryString(params)
  {
    if params != [] {
      var parts := seq(|params|, i requires 0 <= i < |params| => PairText(params[i]));
      assert parts[0] == FormEncode(params[0].key.Name()) + "=" + FormEncode(params[0].value);
      var q := QueryString(params);
      assert |parts| == 1 ==> q == parts[0];
      assert |parts| > 1 ==> q == parts[0] + "&" + Join(parts[1..], "&");
      assert q != "";
    }
  }

  /** One serialised pair holds no '&' and splits on '=' into its key and value. */
  lemma PairTextSplits(p: Param)
    ensures '&' !in PairText(p)
    ensures Split(PairText(p), '=') == [FormEncode(p.key.Name()), FormEncode(p.value)]
  {
    var k := FormEncode(p.key.Name());
    var v := FormEncode(p.value);
    assert forall j :: 0 <= j < |k| ==> EncodedChar(k[j]);
    assert forall j :: 0 <= j < |v| ==> EncodedChar(v[j]);
    assert '=' !in k && '=' !in v;
    var t := PairText(p);
    assert t == k + "=" + v;
    assert forall j :: 0 <= j < |t| ==> t[j] != '&' by {
      forall j | 0 <= j < |t| ensures t[j] != '&' {
        if j < |k| { assert t[j] == k[j]; }
        else if j > |k| { assert t[j] == v[j - |k| - 1]; }
      }
    }
    SplitAfterWord(k, '=', v);
    SplitNoSep(v, '=');
  }

  /** The query string splits back on '&' into one piece per parameter, and each piece on
      '=' into its serialised key and value: the serialiser never emits either separator. */
  lemma QueryStringPairs(params: seq<Param>)
    requires params != []
    ensures Split(QueryString(params), '&') == seq(|params|, i requires 0 <= i < |params| => PairText(params[i]))
    ensures forall i :: 0 <= i < |params| ==>
              Split(PairText(params[i]), '=') == [FormEncode(params[i].key.Name()), FormEncode(params[i].value)]
  {
    var parts := seq(|params|, i requires 0 <= i < |params| => PairText(params[i]));
    forall i | 0 <= i < |params|
      ensures '&' !in parts[i]
      ensures Split(PairText(params[i]), '=') == [FormEncode(params[i].key.Name()), FormEncode(params[i].value)]
    {
      PairTextSplits(params[i]);
    }
    SplitJoin(parts, '&');
  }

  // ----- handleApiError -----

  /** What `handleApiError` inspects of an axios error: the response and its JSON `detail`,
      if any, and whether a request went out. */
  datatype AxiosError = AxiosError(response: Option<Option<string>>, requestSent: bool)

  const SERVER_ERROR_MESSAGE: string := "Server error occurred"
  const NETWORK_ERROR_MESSAGE: string := "Network error - please check your connection"
  const UNEXPECTED_ERROR_MESSAGE: string := "An unexpected error occurred"

  /** The message of the `Error` that `handleApiError` throws; it never returns normally.
      A server answer gives its detail, or a generic text when it has none; a request without
      an answer is a network error; anything else is unexpected. The message is never
      empty. */
  function HandleApiError(e: AxiosError): (message: string)
    ensures e.response.Some? ==> message == OrStr(e.response.value, SERVER_ERROR_MESSAGE)
    ensures e.response.None? && e.requestSent ==> message == NETWORK_ERROR_MESSAGE
    ensures e.response.None? && !e.requestSent ==> message == UNEXPECTED_ERROR_MESSAGE
    ensures message != ""
  {
    if e.response.Some? then OrStr(e.response.value, SERVER_ERROR_MESSAGE)
    else if e.requestSent then NETWORK_ERROR_MESSAGE
    else UNEXPECTED_ERROR_MESSAGE
  }

  /** An awaited call of this service: the data, or the error `handleApiError` throws. The
      `return []` after `handleApiError` in the list calls is never reached. */
  datatype ServiceOutcome<T> = Answered(value: T) | Threw(error: AxiosError) {
    /** The message a caller sees in `error.message`. */
    function Message(): string
      requires Threw?
    {
      HandleApiError(error)
    }
  }
}
