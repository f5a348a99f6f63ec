/** The task schemas the task routes validate with: create, update and the
    list filters taken from the query string. */
module TaskSchemas {
  import opened Common
  import opened Text
  import opened Zod

  const STATUS_NAMES: seq<string> := ["pending", "in_progress", "completed"]
  const PRIORITY_NAMES: seq<string> := ["low", "medium", "high"]
  const SORT_FIELDS: seq<string> := ["createdAt", "dueDate", "priority", "title"]
  const SORT_ORDERS: seq<string> := ["asc", "desc"]

  type StatusName = s: string | s in STATUS_NAMES witness "pending"
  type PriorityName = s: string | s in PRIORITY_NAMES witness "medium"
  type SortField = s: string | s in SORT_FIELDS witness "createdAt"
  type SortOrder = s: string | s in SORT_ORDERS witness "desc"

  /** A due date in a request: not given, explicitly null, or a datetime. */
  datatype DueDate = Unset | Cleared | At(iso: string)

  datatype CreateTaskInput = CreateTaskInput(
    title: string,
    description: string,
    status: StatusName,
    priority: PriorityName,
    dueDate: DueDate)

  datatype UpdateTaskInput = UpdateTaskInput(
    title: Option<string>,
    description: Option<string>,
    status: Option<StatusName>,
    priority: Option<PriorityName>,
    dueDate: DueDate)

  datatype TaskFilters = TaskFilters(
    status: Option<StatusName>,
    priority: Option<PriorityName>,
    search: Option<string>,
    page: int,
    limit: int,
    sortBy: SortField,
    sortOrder: SortOrder)

  const TITLE_CHECKS: seq<StringCheck> := BoundsThenTrim(1, "Title is required", 200, "Title must be at most 200 characters")

  const DESCRIPTION_CHECKS: seq<StringCheck> := MaxThenTrim(2000, "Description must be at most 2000 characters")

  const SEARCH_CHECKS: seq<StringCheck> := [MaxLength(200, StringTooLong(200))]

  const PAGE_CHECKS: seq<NumberCheck> := [IsInteger, GreaterThan(0.0, "Number must be greater than 0")]

  const LIMIT_CHECKS: seq<NumberCheck> := [
    IsInteger,
    GreaterThan(0.0, "Number must be greater than 0"),
    AtMost(100.0, "Number must be less than or equal to 100")
  ]

  // ---------------------------------------------------------------------------
  // Field parsers

  function ParseTitle(v: Value): Parsed<string>
  {
    ParseString(v, TITLE_CHECKS)
  }

  function ParseDescription(v: Value): Parsed<string>
  {
    ParseString(v, DESCRIPTION_CHECKS)
  }

  function ParseSearch(v: Value): Parsed<string>
  {
    ParseString(v, SEARCH_CHECKS)
  }

  function ParseStatus(v: Value): (p: Parsed<StatusName>)
    ensures p.Valid? <==> v.Str? && v.s in STATUS_NAMES
    ensures p.Valid? ==> p.value == v.s
  {
    var e := ParseEnum(v, STATUS_NAMES);
    if e.Valid? then Valid(e.value) else Invalid(e.issues)
  }

  function ParsePriority(v: Value): (p: Parsed<PriorityName>)
    ensures p.Valid? <==> v.Str? && v.s in PRIORITY_NAMES
    ensures p.Valid? ==> p.value == v.s
  {
    var e := ParseEnum(v, PRIORITY_NAMES);
    if e.Valid? then Valid(e.value) else Invalid(e.issues)
  }

  function ParseSortField(v: Value): (p: Parsed<SortField>)
    ensures p.Valid? <==> v.Str? && v.s in SORT_FIELDS
    ensures p.Valid? ==> p.value == v.s
  {
    var e := ParseEnum(v, SORT_FIELDS);
    if e.Valid? then Valid(e.value) else Invalid(e.issues)
  }

  function ParseSortOrder(v: Value): (p: Parsed<SortOrder>)
    ensures p.Valid? <==> v.Str? && v.s in SORT_ORDERS
    ensures p.Valid? ==> p.value == v.s
  {
    var e := ParseEnum(v, SORT_ORDERS);
    if e.Valid? then Valid(e.value) else Invalid(e.issues)
  }

  /** `z.string().datetime().nullable().optional()`. */
  function ParseDueDate(v: Value, formats: Formats): Parsed<DueDate>
  {
    if v.Missing? then Valid(Unset)
    else if v.Null? then Valid(Cleared)
    else match ParseString(v, [Matches(formats.isDateTime, "Invalid datetime")])
      case Valid(s) => Valid(At(s))
      case Invalid(issues) => Invalid(issues)
  }

  /** JavaScript's `Number(v)` as `z.coerce.number()` applies it, with `None`
      for NaN; `fromText` is the conversion of a string. */
  function JsNumber(v: Value, fromText: string -> Option<real>): Option<real>
  {
    match v
    case Missing => None
    case Null => Some(0.0)
    case Bool(b) => Some(if b then 1.0 else 0.0)
    case Num(n) => Some(n)
    case Str(s) => fromText(s)
    case Arr(items) => if ArrayText(items).Some? then fromText(ArrayText(items).value) else None
    case Obj(_) => None
  }

  /** The text an array element contributes to `String(array)`, which joins
      the elements with commas; `None` for numbers and nested arrays, whose
      rendering is not modelled. */
  function ElementText(v: Value): Option<string>
  {
    match v
    case Missing => Some("")
    case Null => Some("")
    case Str(s) => Some(s)
    case Bool(b) => Some(if b then "true" else "false")
    case Obj(_) => Some("[object Object]")
    case Num(_) => None
    case Arr(_) => None
  }

  /** `String(items)`, i.e. `items.join(",")`, when every element renders. */
  function ArrayText(items: seq<Value>): (r: Option<string>)
    ensures r.Some? <==> forall i :: 0 <= i < |items| ==> ElementText(items[i]).Some?
    ensures |items| == 0 ==> r == Some("")
    ensures |items| == 1 ==> r == ElementText(items[0])
  {
    if |items| == 0 then Some("")
    else if |items| == 1 then ElementText(items[0])
    else match (ElementText(items[0]), ArrayText(items[1..]))
      case (Some(h), Some(t)) => Some(h + "," + t)
      case _ => None
  }

  /** An array converts through its comma-joined text: `Number([])` reads
      the empty text and `Number(["3"])` reads "3". */
  lemma ArrayNumbers(s: string, fromText: string -> Option<real>)
    ensures JsNumber(Arr([]), fromText) == fromText("")
    ensures JsNumber(Arr([Str(s)]), fromText) == fromText(s)
    ensures JsNumber(Arr([Str(s), Str("2")]), fromText) == fromText(s + ",2")
  {
    var items := [Str(s), Str("2")];
    assert items[1..] == [Str("2")];
    assert ArrayText(items) == Some(s + "," + "2");
    assert s + "," + "2" == s + ",2";
  }

  function ParsePage(v: Value, fromText: string -> Option<real>): Parsed<real>
  {
    WithDefault(v, Num(1.0), x => ParseCoercedNumber(x, y => JsNumber(y, fromText), PAGE_CHECKS))
  }

  function ParseLimit(v: Value, fromText: string -> Option<real>): Parsed<real>
  {
    WithDefault(v, Num(20.0), x => ParseCoercedNumber(x, y => JsNumber(y, fromText), LIMIT_CHECKS))
  }

  // ---------------------------------------------------------------------------
  // Schemas

  function CreateTaskSchema(body: Value, formats: Formats): (p: Parsed<CreateTaskInput>)
  {
    if !body.Obj? then Invalid([TypeIssue("object", body)])
    else
      var title := ParseTitle(Field(body, "title"));
      var description := WithDefault(Field(body, "description"), Str(""), ParseDescription);
      var status := WithDefault(Field(body, "status"), Str("pending"), ParseStatus);
      var priority := WithDefault(Field(body, "priority"), Str("medium"), ParsePriority);
      var dueDate := ParseDueDate(Field(body, "dueDate"), formats);
      if title.Valid? && description.Valid? && status.Valid? && priority.Valid? && dueDate.Valid? then
        Valid(CreateTaskInput(title.value, description.value, status.value, priority.value, dueDate.value))
      else
        Invalid(Under(Key("title"), title) + Under(Key("description"), description) + Under(Key("status"), status)
                + Under(Key("priority"), priority) + Under(Key("dueDate"), dueDate))
  }

  function UpdateTaskSchema(body: Value, formats: Formats): (p: Parsed<UpdateTaskInput>)
  {
    if !body.Obj? then Invalid([TypeIssue("object", body)])
    else
      var title := Optional(Field(body, "title"), ParseTitle);
      var description := Optional(Field(body, "description"), ParseDescription);
      var status := Optional(Field(body, "status"), ParseStatus);
      var priority := Optional(Field(body, "priority"), ParsePriority);
      var dueDate := ParseDueDate(Field(body, "dueDate"), formats);
      if title.Valid? && description.Valid? && status.Valid? && priority.Valid? && dueDate.Valid? then
        Valid(UpdateTaskInput(title.value, description.value, status.value, priority.value, dueDate.value))
      else
        Invalid(Under(Key("title"), title) + Under(Key("description"), description) + Under(Key("status"), status)
                + Under(Key("priority"), priority) + Under(Key("dueDate"), dueDate))
  }

  function TaskFiltersSchema(query: Value, fromText: string -> Option<real>): (p: Parsed<TaskFilters>)
  {
    if !query.Obj? then Invalid([TypeIssue("object", query)])
    else
      var status := Optional(Field(query, "status"), ParseStatus);
      var priority := Optional(Field(query, "priority"), ParsePriority);
      var search := Optional(Field(query, "search"), ParseSearch);
      var page := ParsePage(Field(query, "page"), fromText);
      var limit := ParseLimit(Field(query, "limit"), fromText);
      var sortBy := WithDefault(Field(query, "sortBy"), Str("createdAt"), ParseSortField);
      var sortOrder := WithDefault(Field(query, "sortOrder"), Str("desc"), ParseSortOrder);
      if status.Valid? && priority.Valid? && search.Valid? && page.Valid? && limit.Valid?
         && sortBy.Valid? && sortOrder.Valid? then
        Valid(TaskFilters(status.value, priority.value, search.value, page.value.Floor, limit.value.Floor,
                          sortBy.value, sortOrder.value))
      else
        Invalid(Under(Key("status"), status) + Under(Key("priority"), priority) + Under(Key("search"), search)
                + Under(Key("page"), page) + Under(Key("limit"), limit) + Under(Key("sortBy"), sortBy)
                + Under(Key("sortOrder"), sortOrder))
  }

  // ---------------------------------------------------------------------------
  // The check chains, evaluated

  lemma TitleChecksRun(s: string)
    ensures RunChecks(s, TITLE_CHECKS).out == Trim(s)
    ensures RunChecks(s, TITLE_CHECKS).failures == [] <==> 1 <= |s| <= 200
  {
    BoundsThenTrimRun(s, 1, "Title is required", 200, "Title must be at most 200 characters");
  }

  lemma DescriptionChecksRun(s: string)
    ensures RunChecks(s, DESCRIPTION_CHECKS).out == Trim(s)
    ensures RunChecks(s, DESCRIPTION_CHECKS).failures == [] <==> |s| <= 2000
  {
    MaxThenTrimRun(s, 2000, "Description must be at most 2000 characters");
  }

  lemma SearchChecksRun(s: string)
    ensures RunChecks(s, SEARCH_CHECKS).out == s
    ensures RunChecks(s, SEARCH_CHECKS).failures == [] <==> |s| <= 200
  {
    assert SEARCH_CHECKS[1..] == [];
  }

  // ---------------------------------------------------------------------------
  // What each schema accepts

  /** A title is 1 to 200 characters before trimming, and is trimmed. */
  lemma ParseTitleMeaning(v: Value)
    ensures ParseTitle(v).Valid? <==> v.Str? && 1 <= |v.s| <= 200
    ensures ParseTitle(v).Valid? ==> ParseTitle(v).value == Trim(v.s)
  {
    if v.Str? { TitleChecksRun(v.s); }
  }

  /** A description is at most 2000 characters before trimming, and is trimmed. */
  lemma ParseDescriptionMeaning(v: Value)
    ensures ParseDescription(v).Valid? <==> v.Str? && |v.s| <= 2000
    ensures ParseDescription(v).Valid? ==> ParseDescription(v).value == Trim(v.s)
  {
    if v.Str? { DescriptionChecksRun(v.s); }
  }

  /** An optional enum field: absent, or one of the listed strings. */
  predicate AbsentOrOneOf(v: Value, options: seq<string>)
  {
    v.Missing? || (v.Str? && v.s in options)
  }

  predicate DueDateAcceptable(v: Value, formats: Formats)
  {
    v.Missing? || v.Null? || (v.Str? && formats.isDateTime(v.s))
  }

  /** The due date a request carries, once accepted. */
  function DueDateOf(v: Value): DueDate
  {
    if v.Missing? then Unset else if v.Null? then Cleared else if v.Str? then At(v.s) else Unset
  }

  lemma ParseDueDateMeaning(v: Value, formats: Formats)
    ensures ParseDueDate(v, formats).Valid? <==> DueDateAcceptable(v, formats)
    ensures ParseDueDate(v, formats).Valid? ==> ParseDueDate(v, formats).value == DueDateOf(v)
  {
    if v.Str? {
      var checks := [Matches(formats.isDateTime, "Invalid datetime")];
      assert checks[1..] == [];
      assert checks[0].test(v.s) == formats.isDateTime(v.s);
      assert RunChecks(v.s, []) == Checked(v.s, []);
    }
  }

  /** createTask's description: absent means "", otherwise at most 2000
      characters, trimmed. */
  lemma DescriptionFieldMeaning(v: Value)
    ensures var p := WithDefault(v, Str(""), ParseDescription);
            && (p.Valid? <==> v.Missing? || (v.Str? && |v.s| <= 2000))
            && (p.Valid? ==> p.value == if v.Missing? then "" else Trim(v.s))
  {
    ParseDescriptionMeaning(v);
    ParseDescriptionMeaning(Str(""));
    assert Trim("") == "";
  }

  lemma StatusFieldMeaning(v: Value)
    ensures var p := WithDefault(v, Str("pending"), ParseStatus);
            && (p.Valid? <==> AbsentOrOneOf(v, STATUS_NAMES))
            && (p.Valid? ==> p.value == if v.Missing? then "pending" else v.s)
  {
  }

  lemma PriorityFieldMeaning(v: Value)
    ensures var p := WithDefault(v, Str("medium"), ParsePriority);
            && (p.Valid? <==> AbsentOrOneOf(v, PRIORITY_NAMES))
            && (p.Valid? ==> p.value == if v.Missing? then "medium" else v.s)
  {
  }

  /** createTask accepts a title of 1 to 200 characters, a description of at
      most 2000 or none, a listed status and priority or none, and a due date
      that is absent, null or a datetime; the defaults fill what is absent. */
  lemma CreateTaskSchemaMeaning(body: Value, formats: Formats)
    ensures var p := CreateTaskSchema(body, formats);
            var title := Field(body, "title");
            var description := Field(body, "description");
            var status := Field(body, "status");
            var priority := Field(body, "priority");
            var dueDate := Field(body, "dueDate");
            && (p.Valid? <==>
                  && body.Obj?
                  && title.Str? && 1 <= |title.s| <= 200
                  && (description.Missing? || (description.Str? && |description.s| <= 2000))
                  && AbsentOrOneOf(status, STATUS_NAMES)
                  && AbsentOrOneOf(priority, PRIORITY_NAMES)
                  && DueDateAcceptable(dueDate, formats))
            && (p.Valid? ==>
                  && p.value.title == Trim(title.s)
                  && p.value.description == (if description.Missing? then "" else Trim(description.s))
                  && p.value.status == (if status.Missing? then "pending" else status.s)
                  && p.value.priority == (if priority.Missing? then "medium" else priority.s)
                  && p.value.dueDate == DueDateOf(dueDate))
  {
    ParseTitleMeaning(Field(body, "title"));
    DescriptionFieldMeaning(Field(body, "description"));
    StatusFieldMeaning(Field(body, "status"));
    PriorityFieldMeaning(Field(body, "priority"));
    ParseDueDateMeaning(Field(body, "dueDate"), formats);
  }

  /** A title of blanks has length at least one before trimming, so it is
      accepted, and the stored title is empty. */
  lemma BlankTitleAccepted(formats: Formats)
    ensures var p := CreateTaskSchema(Obj(map["title" := Str("   ")]), formats);
            p.Valid? && p.value.title == ""
  {
    var body := Obj(map["title" := Str("   ")]);
    assert Field(body, "title") == Str("   ");
    assert Field(body, "description") == Missing;
    assert Field(body, "status") == Missing;
    assert Field(body, "priority") == Missing;
    assert Field(body, "dueDate") == Missing;
    CreateTaskSchemaMeaning(body, formats);
    AllBlankTrimsEmpty("   ");
  }

  /** An optional title: absent stays absent, a present one is checked and
      trimmed. */
  lemma OptionalTitleMeaning(v: Value)
    ensures var p := Optional(v, ParseTitle);
            && (p.Valid? <==> v.Missing? || (v.Str? && 1 <= |v.s| <= 200))
            && (p.Valid? ==> p.value == if v.Missing? then None else Some(Trim(v.s)))
  {
    ParseTitleMeaning(v);
  }

  /** An optional description: absent stays absent, a present one is checked
      and trimmed. */
  lemma OptionalDescriptionMeaning(v: Value)
    ensures var p := Optional(v, ParseDescription);
            && (p.Valid? <==> v.Missing? || (v.Str? && |v.s| <= 2000))
            && (p.Valid? ==> p.value == if v.Missing? then None else Some(Trim(v.s)))
  {
    ParseDescriptionMeaning(v);
  }

  /** updateTask has no defaults: a field left out stays absent, and one
      given is checked as in createTask. */
  lemma UpdateTaskSchemaMeaning(body: Value, formats: Formats)
    ensures var p := UpdateTaskSchema(body, formats);
            var title := Field(body, "title");
            var description := Field(body, "description");
            var status := Field(body, "status");
            var priority := Field(body, "priority");
            var dueDate := Field(body, "dueDate");
            && (p.Valid? <==>
                  && body.Obj?
                  && (title.Missing? || (title.Str? && 1 <= |title.s| <= 200))
                  && (description.Missing? || (description.Str? && |description.s| <= 2000))
                  && AbsentOrOneOf(status, STATUS_NAMES)
                  && AbsentOrOneOf(priority, PRIORITY_NAMES)
                  && DueDateAcceptable(dueDate, formats))
            && (p.Valid? ==>
                  && p.value.title == (if title.Missing? then None else Some(Trim(title.s)))
                  && p.value.description == (if description.Missing? then None else Some(Trim(description.s)))
                  && p.value.status == (if status.Missing? then None else Some(status.s))
                  && p.value.priority == (if priority.Missing? then None else Some(priority.s))
                  && p.value.dueDate == DueDateOf(dueDate))
  {
    OptionalTitleMeaning(Field(body, "title"));
    OptionalDescriptionMeaning(Field(body, "description"));
    ParseDueDateMeaning(Field(body, "dueDate"), formats);
    if body.Obj? {
      var title := Optional(Field(body, "title"), ParseTitle);
      var description := Optional(Field(body, "description"), ParseDescription);
      var status := Optional(Field(body, "status"), ParseStatus);
      var priority := Optional(Field(body, "priority"), ParsePriority);
      var dueDate := ParseDueDate(Field(body, "dueDate"), formats);
      if title.Valid? && description.Valid? && status.Valid? && priority.Valid? && dueDate.Valid? {
        assert UpdateTaskSchema(body, formats)
               == Valid(UpdateTaskInput(title.value, description.value, status.value, priority.value, dueDate.value));
      }
    }
  }

  /** A page or limit parameter is accepted when it is absent (the default
      applies) or converts to a whole number within the bounds. */
  predicate CountAcceptable(v: Value, fromText: string -> Option<real>, max: real)
  {
    v.Missing? ||
    (JsNumber(v, fromText).Some? && IsWhole(JsNumber(v, fromText).value)
     && 0.0 < JsNumber(v, fromText).value <= max)
  }

  lemma ParsePageMeaning(v: Value, fromText: string -> Option<real>)
    ensures var p := ParsePage(v, fromText);
            && (p.Valid? <==> v.Missing? || (JsNumber(v, fromText).Some? && IsWhole(JsNumber(v, fromText).value)
                                             && 0.0 < JsNumber(v, fromText).value))
            && (p.Valid? ==> p.value == if v.Missing? then 1.0 else JsNumber(v, fromText).value)
  {
    assert PAGE_CHECKS[1..][1..] == [];
  }

  lemma ParseLimitMeaning(v: Value, fromText: string -> Option<real>)
    ensures var p := ParseLimit(v, fromText);
            && (p.Valid? <==> CountAcceptable(v, fromText, 100.0))
            && (p.Valid? ==> p.value == if v.Missing? then 20.0 else JsNumber(v, fromText).value)
  {
    assert LIMIT_CHECKS[1..][1..][1..] == [];
  }

  /** The filters accepted: each parameter absent or within its bounds. */
  lemma TaskFiltersSchemaMeaning(query: Value, fromText: string -> Option<real>)
    ensures var search := Field(query, "search");
            var page := Field(query, "page");
            (TaskFiltersSchema(query, fromText).Valid? <==>
                  && query.Obj?
                  && AbsentOrOneOf(Field(query, "status"), STATUS_NAMES)
                  && AbsentOrOneOf(Field(query, "priority"), PRIORITY_NAMES)
                  && (search.Missing? || (search.Str? && |search.s| <= 200))
                  && (page.Missing? || (JsNumber(page, fromText).Some? && IsWhole(JsNumber(page, fromText).value)
                                        && 0.0 < JsNumber(page, fromText).value))
                  && CountAcceptable(Field(query, "limit"), fromText, 100.0)
                  && AbsentOrOneOf(Field(query, "sortBy"), SORT_FIELDS)
                  && AbsentOrOneOf(Field(query, "sortOrder"), SORT_ORDERS))
  {
    ParsePageMeaning(Field(query, "page"), fromText);
    ParseLimitMeaning(Field(query, "limit"), fromText);
    OptionalSearchMeaning(Field(query, "search"));
    FilterEnumsMeaning(query);
  }

  /** The enumerated filters: each is accepted when absent (the sort fields
      then take their defaults) or one of its options. */
  lemma FilterEnumsMeaning(query: Value)
    ensures var v := Field(query, "status");
            var p := Optional(v, ParseStatus);
            && (p.Valid? <==> AbsentOrOneOf(v, STATUS_NAMES))
            && (p.Valid? ==> p.value == if v.Missing? then None else Some(v.s))
    ensures var v := Field(query, "priority");
            var p := Optional(v, ParsePriority);
            && (p.Valid? <==> AbsentOrOneOf(v, PRIORITY_NAMES))
            && (p.Valid? ==> p.value == if v.Missing? then None else Some(v.s))
    ensures var v := Field(query, "sortBy");
            var p := WithDefault(v, Str("createdAt"), ParseSortField);
            && (p.Valid? <==> AbsentOrOneOf(v, SORT_FIELDS))
            && (p.Valid? ==> p.value == if v.Missing? then "createdAt" else v.s)
    ensures var v := Field(query, "sortOrder");
            var p := WithDefault(v, Str("desc"), ParseSortOrder);
            && (p.Valid? <==> AbsentOrOneOf(v, SORT_ORDERS))
            && (p.Valid? ==> p.value == if v.Missing? then "desc" else v.s)
  {
    assert "createdAt" in SORT_FIELDS;
    assert "desc" in SORT_ORDERS;
  }

  /** Accepted filters have a positive page, a limit between 1 and 100 and a
      search of at most 200 characters; absent parameters take their
      defaults. */
  lemma TaskFiltersValues(query: Value, fromText: string -> Option<real>)
    ensures var p := TaskFiltersSchema(query, fromText);
            var page := Field(query, "page");
            var limit := Field(query, "limit");
            p.Valid? ==>
              && p.value.page >= 1 && 1 <= p.value.limit <= 100
              && (p.value.search.Some? ==> |p.value.search.value| <= 200)
              && (page.Missing? ==> p.value.page == 1)
              && (limit.Missing? ==> p.value.limit == 20)
              && (!page.Missing? ==> JsNumber(page, fromText) == Some(p.value.page as real))
              && (!limit.Missing? ==> JsNumber(limit, fromText) == Some(p.value.limit as real))
              && (Field(query, "search").Missing? ==> p.value.search.None?)
              && (Field(query, "sortBy").Missing? ==> p.value.sortBy == "createdAt")
              && (Field(query, "sortOrder").Missing? ==> p.value.sortOrder == "desc")
  {
    ParsePageMeaning(Field(query, "page"), fromText);
    ParseLimitMeaning(Field(query, "limit"), fromText);
    OptionalSearchMeaning(Field(query, "search"));
    FilterEnumsMeaning(query);
    TaskFiltersParts(query, fromText);
  }

  /** Accepted filters are the parts' values, the counts floored. */
  lemma TaskFiltersParts(query: Value, fromText: string -> Option<real>)
    ensures var p := TaskFiltersSchema(query, fromText);
            var page := ParsePage(Field(query, "page"), fromText);
            var limit := ParseLimit(Field(query, "limit"), fromText);
            var search := Optional(Field(query, "search"), ParseSearch);
            var status := Optional(Field(query, "status"), ParseStatus);
            var priority := Optional(Field(query, "priority"), ParsePriority);
            var sortBy := WithDefault(Field(query, "sortBy"), Str("createdAt"), ParseSortField);
            var sortOrder := WithDefault(Field(query, "sortOrder"), Str("desc"), ParseSortOrder);
            p.Valid? ==>
              && page.Valid? && limit.Valid? && search.Valid? && sortBy.Valid? && sortOrder.Valid?
              && status.Valid? && priority.Valid?
              && p.value.page == page.value.Floor && p.value.limit == limit.value.Floor
              && p.value.search == search.value
              && p.value.status == status.value && p.value.priority == priority.value
              && p.value.sortBy == sortBy.value && p.value.sortOrder == sortOrder.value
  {
  }

  /** Accepted filters carry the status, priority and sort choices exactly
      as the query gives them, and none or the defaults when it does not. */
  lemma TaskFiltersChoices(query: Value, fromText: string -> Option<real>)
    ensures var p := TaskFiltersSchema(query, fromText);
            var status := Field(query, "status");
            var priority := Field(query, "priority");
            var sortBy := Field(query, "sortBy");
            var sortOrder := Field(query, "sortOrder");
            p.Valid? ==>
              && p.value.status == (if status.Missing? then None else Some(status.s))
              && p.value.priority == (if priority.Missing? then None else Some(priority.s))
              && p.value.sortBy == (if sortBy.Missing? then "createdAt" else sortBy.s)
              && p.value.sortOrder == (if sortOrder.Missing? then "desc" else sortOrder.s)
  {
    FilterEnumsMeaning(query);
    TaskFiltersParts(query, fromText);
  }

  /** An optional search text: absent stays absent, a present one is at
      most 200 characters and kept as given. */
  lemma OptionalSearchMeaning(v: Value)
    ensures var p := Optional(v, ParseSearch);
            && (p.Valid? <==> v.Missing? || (v.Str? && |v.s| <= 200))
            && (p.Valid? ==> p.value == if v.Missing? then None else Some(v.s))
  {
    if v.Str? { SearchChecksRun(v.s); }
  }

  /** An empty query string gives the first page of twenty, newest first. */
  lemma EmptyQueryDefaults(fromText: string -> Option<real>)
    ensures TaskFiltersSchema(Obj(map[]), fromText)
              == Valid(TaskFilters(None, None, None, 1, 20, "createdAt", "desc"))
  {
    TaskFiltersSchemaMeaning(Obj(map[]), fromText);
    TaskFiltersValues(Obj(map[]), fromText);
  }
}
