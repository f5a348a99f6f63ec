/** The request-validation middleware: it parses the body or the query
    string with a schema. On success the parsed data replaces the body (or
    is attached as the validated query) and the next handler runs; on a
    validation error it answers 400 with the issue messages grouped by
    dotted path; any other error goes to the error handler. */
module ValidateMiddleware {
  import opened Common
  import opened Text
  import opened Zod

  datatype Source = Body | Query

  /** What `schema.parse` does: return the data, throw a ZodError with its
      issues, or throw something else. */
  datatype Attempt<T, E> = Returned(value: T) | ZodFailure(issues: seq<Issue>) | OtherFailure(error: E)

  /** The request as the middleware sees and leaves it. `parsedBody` stands
      for the body once the parsed data has replaced it. */
  datatype Request<T> = Request(body: Value, query: Value, parsedBody: Option<T>, validatedQuery: Option<T>)

  /** One key of the `errors` record: a dotted path and its messages. */
  datatype Entry = Entry(path: string, messages: seq<string>)

  datatype Response = Response(status: int, success: bool, message: string, errors: seq<Entry>)

  datatype Outcome<T, E> = Next(request: Request<T>) | Respond(response: Response) | Forward(error: E)

  /** A zod parse seen as an attempt that never throws anything but a ZodError. */
  function FromParsed<T, E>(p: Parsed<T>): (a: Attempt<T, E>)
    ensures a.Returned? <==> p.Valid?
    ensures a.Returned? ==> a.value == p.value
    ensures a.ZodFailure? ==> a.issues == p.issues
    ensures !a.OtherFailure?
  {
    match p
    case Valid(v) => Returned(v)
    case Invalid(issues) => ZodFailure(issues)
  }

  // ---------------------------------------------------------------------------
  // Grouping the issues

  function SegmentText(seg: PathSegment): string
  {
    match seg
    case Key(k) => k
    case Index(n) => NatToString(n)
  }

  /** `path.join(".")`. */
  function PathKey(path: seq<PathSegment>): string
  {
    Join(seq(|path|, i requires 0 <= i < |path| => SegmentText(path[i])), ".")
  }

  /** The messages of the issues whose path joins to `key`, in order. */
  function MessagesAt(issues: seq<Issue>, key: string): (r: seq<string>)
    ensures |r| <= |issues|
    decreases |issues|
  {
    if |issues| == 0 then []
    else
      var last := issues[|issues| - 1];
      MessagesAt(issues[..|issues| - 1], key) + (if PathKey(last.path) == key then [last.message] else [])
  }

  /** `errors[key]`: the messages of the first entry with that key. */
  function Lookup(entries: seq<Entry>, key: string): Option<seq<string>>
    decreases |entries|
  {
    if |entries| == 0 then None
    else if entries[0].path == key then Some(entries[0].messages)
    else Lookup(entries[1..], key)
  }

  predicate DistinctKeys(entries: seq<Entry>)
  {
    forall i, j :: 0 <= i < j < |entries| ==> entries[i].path != entries[j].path
  }

  predicate NoEmptyEntry(entries: seq<Entry>)
  {
    forall i :: 0 <= i < |entries| ==> |entries[i].messages| > 0
  }

  function TotalMessages(entries: seq<Entry>): nat
    decreases |entries|
  {
    if |entries| == 0 then 0 else |entries[0].messages| + TotalMessages(entries[1..])
  }

  /** `errors[key]` after one more message for `key`. */
  function Appended(prior: Option<seq<string>>, message: string): seq<string>
  {
    prior.GetOr([]) + [message]
  }

  lemma ConsLookup(e: Entry, rest: seq<Entry>, k: string)
    ensures Lookup([e] + rest, k) == if e.path == k then Some(e.messages) else Lookup(rest, k)
  {
    assert ([e] + rest)[1..] == rest;
  }

  lemma ConsTotal(e: Entry, rest: seq<Entry>)
    ensures TotalMessages([e] + rest) == |e.messages| + TotalMessages(rest)
  {
    assert ([e] + rest)[1..] == rest;
  }

  /** One step of the loop: append to the key's list, creating it at the
      end of the record when absent. */
  function AddMessage(entries: seq<Entry>, key: string, message: string): (r: seq<Entry>)
    ensures forall k :: Lookup(r, k) == if k == key then Some(Appended(Lookup(entries, k), message)) else Lookup(entries, k)
    ensures TotalMessages(r) == TotalMessages(entries) + 1
    decreases |entries|
  {
    if |entries| == 0 then
      var e := Entry(key, [message]);
      assert [e] + [] == [e];
      ConsTotal(e, []);
      forall k ensures Lookup([e], k) == if k == key then Some(Appended(Lookup(entries, k), message)) else Lookup(entries, k) {
        ConsLookup(e, [], k);
        assert Lookup(entries, k) == None;
        assert Appended(None, message) == [message];
      }
      [e]
    else
      var e := entries[0];
      var tail := entries[1..];
      assert entries == [e] + tail;
      ConsTotal(e, tail);
      if e.path == key then
        var grown := e.(messages := e.messages + [message]);
        ConsTotal(grown, tail);
        forall k ensures Lookup([grown] + tail, k) == if k == key then Some(Appended(Lookup(entries, k), message)) else Lookup(entries, k) {
          ConsLookup(grown, tail, k);
          ConsLookup(e, tail, k);
        }
        [grown] + tail
      else
        var rest := AddMessage(tail, key, message);
        ConsTotal(e, rest);
        forall k ensures Lookup([e] + rest, k) == if k == key then Some(Appended(Lookup(entries, k), message)) else Lookup(entries, k) {
          ConsLookup(e, rest, k);
          ConsLookup(e, tail, k);
        }
        [e] + rest
  }

  /** `errors[key]` is defined exactly when some entry has that key. */
  lemma {:induction false} LookupSome(entries: seq<Entry>, k: string)
    ensures Lookup(entries, k).Some? <==> exists m :: 0 <= m < |entries| && entries[m].path == k
    decreases |entries|
  {
    if |entries| > 0 {
      LookupSome(entries[1..], k);
      if entries[0].path != k && Lookup(entries, k).Some? {
        var m :| 0 <= m < |entries[1..]| && entries[1..][m].path == k;
        assert entries[m + 1].path == k;
      }
      if exists m :: 0 <= m < |entries| && entries[m].path == k {
        var m :| 0 <= m < |entries| && entries[m].path == k;
        if entries[0].path != k {
          assert entries[1..][m - 1].path == k;
        }
      }
    }
  }

  /** A step keeps the keys distinct and every list non-empty. */
  lemma {:induction false} AddMessageKeepsShape(entries: seq<Entry>, key: string, message: string)
    requires DistinctKeys(entries) && NoEmptyEntry(entries)
    ensures DistinctKeys(AddMessage(entries, key, message))
    ensures NoEmptyEntry(AddMessage(entries, key, message))
    decreases |entries|
  {
    if |entries| > 0 {
      var e := entries[0];
      var tail := entries[1..];
      var r := AddMessage(entries, key, message);
      if e.path == key {
        assert forall i :: 1 <= i < |r| ==> r[i] == entries[i];
      } else {
        AddMessageKeepsShape(tail, key, message);
        var rest := AddMessage(tail, key, message);
        assert r == [e] + rest;
        assert forall i :: 1 <= i < |r| ==> r[i] == rest[i - 1];
        forall m | 0 <= m < |tail| ensures tail[m].path != e.path {
          assert tail[m] == entries[m + 1];
        }
        LookupSome(tail, e.path);
        assert Lookup(rest, e.path) == Lookup(tail, e.path);
        LookupSome(rest, e.path);
      }
    }
  }

  /** The `errors` record built by walking the issues in order. */
  function GroupIssues(issues: seq<Issue>): (r: seq<Entry>)
    ensures forall k :: Lookup(r, k) == if MessagesAt(issues, k) == [] then None else Some(MessagesAt(issues, k))
    ensures DistinctKeys(r)
    ensures NoEmptyEntry(r)
    ensures TotalMessages(r) == |issues|
    decreases |issues|
  {
    if |issues| == 0 then []
    else
      var last := issues[|issues| - 1];
      var init := issues[..|issues| - 1];
      var prior := GroupIssues(init);
      var r := AddMessage(prior, PathKey(last.path), last.message);
      AddMessageKeepsShape(prior, PathKey(last.path), last.message);
      forall k ensures Lookup(r, k) == if MessagesAt(issues, k) == [] then None else Some(MessagesAt(issues, k)) {
        assert MessagesAt(issues, k) == MessagesAt(init, k) + (if PathKey(last.path) == k then [last.message] else []);
        var key := PathKey(last.path);
        assert Lookup(prior, k) == if MessagesAt(init, k) == [] then None else Some(MessagesAt(init, k));
        assert Lookup(r, k) == if k == key then Some(Appended(Lookup(prior, k), last.message)) else Lookup(prior, k);
        if k == key {
          assert Appended(Lookup(prior, k), last.message) == MessagesAt(init, k) + [last.message];
        } else {
          assert MessagesAt(issues, k) == MessagesAt(init, k);
        }
      }
      r
  }

  // ---------------------------------------------------------------------------
  // The middleware

  function Validate<T, E>(schema: Value -> Attempt<T, E>, source: Source, req: Request<T>): (o: Outcome<T, E>)
  {
    match schema(if source.Body? then req.body else req.query)
    case Returned(data) =>
      if source.Body? then Next(req.(parsedBody := Some(data))) else Next(req.(validatedQuery := Some(data)))
    case ZodFailure(issues) => Respond(Response(400, false, "Validation failed", GroupIssues(issues)))
    case OtherFailure(e) => Forward(e)
  }

  /** The next handler runs exactly when the schema accepted the selected
      input, and then sees the parsed data in the place that matches the
      source and nothing else of the request changed; a validation error
      answers 400 listing every issue; any other error is forwarded as it
      was thrown. */
  lemma ValidateMeaning<T, E>(schema: Value -> Attempt<T, E>, source: Source, req: Request<T>)
    ensures var input := if source.Body? then req.body else req.query;
            var o := Validate(schema, source, req);
            && (o.Next? <==> schema(input).Returned?)
            && (o.Next? && source.Body? ==>
                  o.request == Request(req.body, req.query, Some(schema(input).value), req.validatedQuery))
            && (o.Next? && source.Query? ==>
                  o.request == Request(req.body, req.query, req.parsedBody, Some(schema(input).value)))
            && (o.Respond? <==> schema(input).ZodFailure?)
            && (o.Respond? ==>
                  && o.response.status == 400 && !o.response.success
                  && o.response.message == "Validation failed"
                  && TotalMessages(o.response.errors) == |schema(input).issues|
                  && forall k :: Lookup(o.response.errors, k).Some? <==> MessagesAt(schema(input).issues, k) != [])
            && (o.Forward? <==> schema(input).OtherFailure?)
            && (o.Forward? ==> o.error == schema(input).error)
  {
  }

  /** Two messages for the same field land under one key, in order. */
  lemma SameFieldMessagesGrouped(first: string, second: string)
    ensures var issues := [Issue([Key("password")], first), Issue([Key("password")], second)];
            GroupIssues(issues) == [Entry("password", [first, second])]
  {
    var issues := [Issue([Key("password")], first), Issue([Key("password")], second)];
    var texts := seq(1, i requires 0 <= i < 1 => SegmentText([Key("password")][i]));
    assert texts == ["password"];
    assert PathKey([Key("password")]) == "password";
    assert issues[..1] == [issues[0]];
    assert [issues[0]][..0] == [];
    var one := AddMessage([], "password", first);
    assert one == [Entry("password", [first])];
    assert GroupIssues(issues[..1]) == one;
    var two := AddMessage(one, "password", second);
    assert one[1..] == [];
    assert two == [Entry("password", [first] + [second])] + [];
    assert [first] + [second] == [first, second];
    assert GroupIssues(issues) == AddMessage(GroupIssues(issues[..1]), PathKey(issues[1].path), issues[1].message);
  }
}
