/** The pure decision logic of `AparaviClient` (aparavi_dtc_sdk/client.py):
    what goes on the wire for each operation, how an HTTP reply is
    classified, how the `{status, data, error, metrics}` envelope is read, and
    which exception each operation raises for an envelope whose status is
    'Error'. */
module Wire {
  import opened Text
  import opened Json
  import Base64

  datatype Verb = GET | POST | PUT | DELETE

  /** A query-string value as `requests` receives it in `params`. */
  datatype QueryValue = QStr(s: string) | QInt(n: int)

  /** The `params` dict, in insertion order. */
  type Query = seq<(string, QueryValue)>

  /** One call of `session.request`: method, full URL, `params`, `json`. */
  datatype Request = Request(verb: Verb, url: string, params: Query, body: Option<Json>)

  /** What the transport yields for a request: an HTTP response with its
      status code, raw text and parsed JSON body, or a failure raised by
      `requests` itself (timeout, connection error, ...). */
  datatype Reply =
    | Response(code: int, text: string, body: Json)
    | NetworkFailure(reason: string)

  /** The exceptions the client raises. */
  datatype Exception =
    | AuthenticationError(message: string)
    | ValidationError(message: string)
    | AparaviError(message: string)
    | TaskNotFoundError(message: string)
    | PipelineError(message: string)
    | ValueError(message: string)
    | KeyError(key: string)
    | TypeError(typeName: string)

  /** A Python call either returns a value or raises an exception. */
  datatype Outcome<+T> = Return(value: T) | Raise(exc: Exception)

  /** `ResultBase(status, data, error, metrics)`; a field missing from the
      reply is `None`, i.e. JNull. */
  datatype ResultBase = ResultBase(status: Json, data: Json, error: Json, metrics: Json)

  /** The client's operations, for the per-operation error translation. */
  datatype Operation = GetVersion | ValidatePipe | StartTask | GetTaskStatus | EndTask

  const VersionPath: string := "/version"
  const ValidatePath: string := "/pipe/validate"
  const TaskPath: string := "/task"
  const WebhookPath: string := "/webhook"

  /** Every endpoint the client calls. */
  const Endpoints: set<string> := {VersionPath, ValidatePath, TaskPath, WebhookPath}

  const ThreadsMin: int := 1
  const ThreadsMax: int := 16

  /** Status-code classification of `_make_request`: 401 and 422 are checked
      before the generic `>= 400` branch; any failure of the transport itself
      becomes a generic AparaviError; otherwise the parsed body is returned. */
  function Classify(reply: Reply): (r: Outcome<Json>)
    ensures (r.Raise? && r.exc.AuthenticationError?) <==> (reply.Response? && reply.code == 401)
    ensures (r.Raise? && r.exc.ValidationError?) <==> (reply.Response? && reply.code == 422)
    ensures (r.Raise? && r.exc.AparaviError?) <==>
              (reply.NetworkFailure? || (reply.code >= 400 && reply.code != 401 && reply.code != 422))
    ensures r.Return? <==> (reply.Response? && reply.code < 400)
    ensures r.Return? ==> r.value == reply.body
    ensures r.Raise? ==> r.exc.AuthenticationError? || r.exc.ValidationError? || r.exc.AparaviError?
    ensures reply.Response? && reply.code == 401 ==>
              r.exc.message == "Invalid API key or authentication failed"
    ensures reply.Response? && reply.code == 422 ==>
              r.exc.message == "Validation error: " + reply.text
    ensures reply.Response? && reply.code >= 400 && reply.code != 401 && reply.code != 422 ==>
              r.exc.message == "API error " + IntToString(reply.code) + ": " + reply.text
    ensures reply.NetworkFailure? ==> r.exc.message == "Request failed: " + reply.reason
  {
    match reply
    case NetworkFailure(reason) => Raise(AparaviError("Request failed: " + reason))
    case Response(code, text, body) =>
      if code == 401 then Raise(AuthenticationError("Invalid API key or authentication failed"))
      else if code == 422 then Raise(ValidationError("Validation error: " + text))
      else if code >= 400 then Raise(AparaviError("API error " + IntToString(code) + ": " + text))
      else Return(body)
  }

  /** Python's name for the type of a parsed JSON value. */
  function TypeName(j: Json): string
  {
    match j
    case JNull => "NoneType"
    case JBool(_) => "bool"
    case JNum(_) => "int"
    case JStr(_) => "str"
    case JArr(_) => "list"
    case JObj(_) => "dict"
  }

  /** Building the ResultBase from a parsed body: `response['status']` must
      exist (KeyError otherwise, TypeError when the body is not an object);
      `data`, `error` and `metrics` are read with `.get`. */
  function Envelope(body: Json): (r: Outcome<ResultBase>)
    ensures r.Return? <==> body.JObj? && Lookup(body.members, "status").Some?
    ensures r.Return? ==>
              && r.value.status == Lookup(body.members, "status").value
              && r.value.data == Get(body.members, "data")
              && r.value.error == Get(body.members, "error")
              && r.value.metrics == Get(body.members, "metrics")
    ensures body.JObj? && r.Raise? ==> r.exc == KeyError("status")
    ensures !body.JObj? ==> r.Raise? && r.exc.TypeError?
  {
    match body
    case JObj(members) =>
      (match Lookup(members, "status")
       case None => Raise(KeyError("status"))
       case Some(status) =>
         Return(ResultBase(status, Get(members, "data"), Get(members, "error"), Get(members, "metrics"))))
    case _ => Raise(TypeError(TypeName(body)))
  }

  predicate IsErrorStatus(result: ResultBase)
  {
    result.status == JStr("Error")
  }

  /** `'not found' in str(error).lower()`. */
  predicate SaysNotFound(error: Json)
  {
    Contains(Lower(Str(error)), "not found")
  }

  /** The per-operation check of the envelope status: get_version returns the
      envelope as it is; validate_pipe raises PipelineError and start_task
      AparaviError on 'Error'; get_task_status and end_task raise
      TaskNotFoundError when the error text says "not found" (in any case)
      and AparaviError otherwise. A non-'Error' envelope is returned
      unchanged by every operation. */
  function CheckStatus(op: Operation, result: ResultBase): (r: Outcome<ResultBase>)
    ensures r.Return? <==> !IsErrorStatus(result) || op == GetVersion
    ensures r.Return? ==> r.value == result
    ensures IsErrorStatus(result) && op == ValidatePipe ==>
              r == Raise(PipelineError("Pipeline validation failed: " + Str(result.error)))
    ensures IsErrorStatus(result) && op == StartTask ==>
              r == Raise(AparaviError("Task execution failed: " + Str(result.error)))
    ensures IsErrorStatus(result) && (op == GetTaskStatus || op == EndTask) ==>
              && (r.exc.TaskNotFoundError? <==> SaysNotFound(result.error))
              && (r.exc.TaskNotFoundError? || r.exc.AparaviError?)
    ensures IsErrorStatus(result) && (op == GetTaskStatus || op == EndTask) && SaysNotFound(result.error) ==>
              r.exc.message == "Task not found: " + Str(result.error)
    ensures IsErrorStatus(result) && op == GetTaskStatus && !SaysNotFound(result.error) ==>
              r.exc.message == "Failed to get task status: " + Str(result.error)
    ensures IsErrorStatus(result) && op == EndTask && !SaysNotFound(result.error) ==>
              r.exc.message == "Failed to end task: " + Str(result.error)
  {
    if !IsErrorStatus(result) then Return(result)
    else
      var detail := Str(result.error);
      match op
      case GetVersion => Return(result)
      case ValidatePipe => Raise(PipelineError("Pipeline validation failed: " + detail))
      case StartTask => Raise(AparaviError("Task execution failed: " + detail))
      case GetTaskStatus =>
        if SaysNotFound(result.error) then Raise(TaskNotFoundError("Task not found: " + detail))
        else Raise(AparaviError("Failed to get task status: " + detail))
      case EndTask =>
        if SaysNotFound(result.error) then Raise(TaskNotFoundError("Task not found: " + detail))
        else Raise(AparaviError("Failed to end task: " + detail))
  }

  /** What an envelope operation makes of the transport's reply: the
      classification of `_make_request`, then the envelope, then the
      operation's status check. */
  function Interpret(op: Operation, reply: Reply): (r: Outcome<ResultBase>)
    ensures Classify(reply).Raise? ==> r == Raise(Classify(reply).exc)
    ensures r.Return? ==> reply.Response? && reply.code < 400 && Envelope(reply.body) == r
    ensures r.Return? && op != GetVersion ==> !IsErrorStatus(r.value)
    ensures reply.NetworkFailure? ==> r.Raise? && r.exc.AparaviError?
    ensures Classify(reply).Return? && Envelope(reply.body).Raise? ==> r == Envelope(reply.body)
    ensures Classify(reply).Return? && Envelope(reply.body).Return? ==>
              r == CheckStatus(op, Envelope(reply.body).value)
  {
    match Classify(reply)
    case Raise(e) => Raise(e)
    case Return(body) =>
      match Envelope(body)
      case Raise(e) => Raise(e)
      case Return(result) => CheckStatus(op, result)
  }

  /** Lower-casing distributes over a context, so an occurrence found in the
      lower-cased middle survives in the lower-cased whole. */
  lemma ContainsLower(a: string, x: string, b: string, pat: string)
    requires Contains(Lower(x), pat)
    ensures Contains(Lower(a + x + b), pat)
  {
    LowerAppend(a + x, b);
    LowerAppend(a, x);
    ContainsInContext(Lower(a), Lower(x), Lower(b), pat);
  }

  /** `repr` writes plain characters as they are, so a pattern made of
      plain characters that `str` shows survives in `repr`, escapes and
      quotes around it notwithstanding. */
  lemma ReprKeeps(v: Json, pat: string)
    requires forall i :: 0 <= i < |pat| ==> Plain(pat[i])
    requires Contains(Lower(Str(v)), pat)
    ensures Contains(Lower(Repr(v)), pat)
  {
    if v.JStr? {
      ReprStringKeeps(v.s, pat);
    }
  }

  lemma ReprStringKeeps(s: string, pat: string)
    requires forall i :: 0 <= i < |pat| ==> Plain(pat[i])
    requires Contains(Lower(s), pat)
    ensures Contains(Lower(ReprString(s)), pat)
  {
    var i :| OccursAt(Lower(s), pat, i);
    var before, x, after := s[..i], s[i..i + |pat|], s[i + |pat|..];
    assert s == before + x + after;
    PlainOccurrence(s, pat, i);
    var quote := if '\'' in s && '"' !in s then '"' else '\'';
    EscapeAround(before, x, after, quote);
    var e1, e2 := Escape(before, quote), Escape(after, quote);
    assert Escape(s, quote) == e1 + x + e2;
    assert ReprString(s) == [quote] + (e1 + x + e2) + [quote];
    Regroup(quote, e1, x, e2);
    ContainsLower([quote] + e1, x, e2 + [quote], pat);
  }

  lemma Regroup(quote: char, e1: string, x: string, e2: string)
    ensures [quote] + (e1 + x + e2) + [quote] == ([quote] + e1) + x + (e2 + [quote])
  {
  }

  /** The characters where a plain pattern occurs in the lower-cased text
      are plain themselves, and lower-case to the pattern. */
  lemma PlainOccurrence(s: string, pat: string, i: int)
    requires forall k :: 0 <= k < |pat| ==> Plain(pat[k])
    requires OccursAt(Lower(s), pat, i)
    ensures var x := s[i..i + |pat|];
      (forall k :: 0 <= k < |x| ==> Plain(x[k])) && Contains(Lower(x), pat)
  {
    var t, x := Lower(s), s[i..i + |pat|];
    forall k | 0 <= k < |x| ensures Plain(x[k]) && LowerChar(x[k]) == pat[k] {
      calc {
        pat[k];
        t[i..i + |pat|][k];
        t[i + k];
        LowerChar(s[i + k]);
        LowerChar(x[k]);
      }
      LowerPlain(x[k]);
    }
    assert Lower(x) == pat;
    assert OccursAt(Lower(x), pat, 0);
  }

  lemma LowerPlain(c: char)
    requires Plain(LowerChar(c))
    ensures Plain(c)
  {
  }

  lemma EscapeAround(before: string, x: string, after: string, quote: char)
    requires quote == '\'' || quote == '"'
    requires forall k :: 0 <= k < |x| ==> Plain(x[k])
    ensures Escape(before + x + after, quote) == Escape(before, quote) + x + Escape(after, quote)
  {
    EscapePlain(x, quote);
    EscapeAppend(before + x, after, quote);
    EscapeAppend(before, x, quote);
  }

  /** An occurrence in the rendering of the value one key holds is an
      occurrence in the rendering of the whole dict. */
  lemma {:induction false} DictKeep(members: seq<Member>, keys: seq<string>, p: int, pat: string)
    requires 0 <= p < |keys|
    requires Contains(Lower(ReprValue(members, keys[p])), pat)
    ensures Contains(Lower(ReprDict(members, keys)), pat)
    decreases |keys|
  {
    var head := ReprString(keys[0]) + ": ";
    var value := ReprValue(members, keys[0]);
    var rest := if |keys| == 1 then "" else ", " + ReprDict(members, keys[1..]);
    assert ReprDict(members, keys) == head + value + rest;
    if p == 0 {
      ContainsLower(head, value, rest, pat);
    } else {
      DictKeep(members, keys[1..], p - 1, pat);
      ContainsLower(head + value + ", ", ReprDict(members, keys[1..]), "", pat);
      assert ReprDict(members, keys) == head + value + ", " + ReprDict(members, keys[1..]) + "";
    }
  }

  /** The value of the last member with a key is the value the dict holds
      for that key. */
  lemma LastBindingLookedUp(members: seq<Member>, i: int)
    requires 0 <= i < |members|
    requires forall j :: i < j < |members| ==> members[j].key != members[i].key
    ensures Lookup(members, members[i].key) == Some(members[i].value)
  {
    var r := Lookup(members, members[i].key);
    var w :| 0 <= w < |members| && members[w] == Member(members[i].key, r.value)
             && forall j :: w < j < |members| ==> members[j].key != members[i].key;
    assert w == i;
  }

  lemma NotFoundIsPlain()
    ensures forall k :: 0 <= k < |"not found"| ==> Plain("not found"[k])
  {
  }

  /** The not-found test is case-insensitive: any spelling of "not found"
      anywhere in a string error is recognised. */
  lemma NotFoundAnyCase(before: string, phrase: string, after: string)
    requires Lower(phrase) == "not found"
    ensures SaysNotFound(JStr(before + phrase + after))
  {
    assert OccursAt(Lower(phrase), "not found", 0);
    ContainsLower(before, phrase, after, "not found");
  }

  /** The test runs on `str(error)`, so a structured error (a dict) whose
      value for some key says "not found" is recognised too. The member must
      be the last one with its key: an earlier one is overwritten when the
      dict is built. */
  lemma NotFoundInObject(members: seq<Member>, i: int)
    requires 0 <= i < |members| && SaysNotFound(members[i].value)
    requires forall j :: i < j < |members| ==> members[j].key != members[i].key
    ensures SaysNotFound(JObj(members))
  {
    NotFoundIsPlain();
    ReprKeeps(members[i].value, "not found");
    NotFoundInRepr(members, i);
  }

  /** What the test sees of a dict value is its `repr`. */
  lemma NotFoundInRepr(members: seq<Member>, i: int)
    requires 0 <= i < |members| && Contains(Lower(Repr(members[i].value)), "not found")
    requires forall j :: i < j < |members| ==> members[j].key != members[i].key
    ensures SaysNotFound(JObj(members))
  {
    var keys := Keys(members);
    assert members[i].key in keys;
    var p :| 0 <= p < |keys| && keys[p] == members[i].key;
    LastBindingLookedUp(members, i);
    DictKeep(members, keys, p, "not found");
    ContainsLower("{", ReprDict(members, keys), "}", "not found");
  }

  /** `repr` writes a newline as backslash and 'n', so a dict value made of
      a newline followed by any spelling of "ot found" says "not found"
      once it is inside a dict, although the string itself does not. */
  lemma EscapedNewlineSaysNotFound(key: string, rest: string)
    requires Lower(rest) == "ot found"
    ensures SaysNotFound(JObj([Member(key, JStr("\n" + rest))]))
    ensures !SaysNotFound(JStr("\n" + rest))
  {
    NotFoundIsPlain();
    assert "ot found" == "not found"[1..];
    PlainRest(rest, "ot found");
    NewlineRepr(rest);
    LowerAppend("n", rest);
    assert Lower("n" + rest) == "not found";
    assert OccursAt(Lower("n" + rest), "not found", 0);
    ContainsLower("'\\", "n" + rest, "'", "not found");
    NotFoundInRepr([Member(key, JStr("\n" + rest))], 0);
    RawNewlineSaysNothing(rest);
  }

  lemma PlainRest(rest: string, lowered: string)
    requires Lower(rest) == lowered
    requires forall k :: 0 <= k < |lowered| ==> Plain(lowered[k])
    ensures forall k :: 0 <= k < |rest| ==> Plain(rest[k])
  {
    forall k | 0 <= k < |rest| ensures Plain(rest[k]) {
      assert LowerChar(rest[k]) == lowered[k];
      LowerPlain(rest[k]);
    }
  }

  lemma NewlineRepr(rest: string)
    requires forall k :: 0 <= k < |rest| ==> Plain(rest[k])
    ensures ReprString("\n" + rest) == "'\\" + ("n" + rest) + "'"
  {
    var s := "\n" + rest;
    assert s[0] == '\n' && s[1..] == rest;
    assert '\'' !in s by {
      forall k | 0 <= k < |s| ensures s[k] != '\'' {
        if k > 0 { assert s[k] == rest[k - 1]; }
      }
    }
    EscapePlain(rest, '\'');
    assert Escape(s, '\'') == "\\n" + rest;
  }

  lemma RawNewlineSaysNothing(rest: string)
    requires |Lower(rest)| == 8
    ensures !Contains(Lower("\n" + rest), "not found")
  {
    var t := Lower("\n" + rest);
    forall i ensures !OccursAt(t, "not found", i) {
      if i == 0 {
        assert t[0] == LowerChar('\n');
        NoOccurrenceAt(t, "not found", 0);
      }
    }
  }

  /** A member overwritten by a later one with the same key is gone from
      the dict: the error renders exactly as if it had never been there, so
      `{"k": "Not found", "k": "boom"}` renders as `{'k': 'boom'}` and its
      "not found" is not seen. */
  lemma ShadowedMemberDropped(key: string, first: Json, last: Json)
    ensures Str(JObj([Member(key, first), Member(key, last)])) == Str(JObj([Member(key, last)]))
    ensures SaysNotFound(JObj([Member(key, first), Member(key, last)])) == SaysNotFound(JObj([Member(key, last)]))
  {
    var a, b := [Member(key, first), Member(key, last)], [Member(key, last)];
    assert a[..1] == [Member(key, first)];
    assert a[..1][..0] == [] && b[..0] == [];
    assert Keys(b) == Keys(b[..0]) + [key] == [key];
    assert Keys(a[..1]) == Keys(a[..1][..0]) + [key] == [key];
    assert Keys(a) == [key];
    forall k ensures Lookup(a, k) == Lookup(b, k) {
    }
    StrDictView(a, b);
  }

  /** A text without the letter n, in either case, never says "not found". */
  lemma WithoutLetterN(s: string)
    requires forall i :: 0 <= i < |s| ==> s[i] != 'n' && s[i] != 'N'
    ensures !Contains(Lower(s), "not found")
  {
    var text := Lower(s);
    forall i ensures !OccursAt(text, "not found", i) {
      if 0 <= i < |text| {
        assert text[i] == LowerChar(s[i]);
      }
      NoOccurrenceAt(text, "not found", i);
    }
  }

  /** No occurrence starts at a character other than the pattern's first. */
  lemma NoOccurrenceAt(s: string, pat: string, i: int)
    requires |pat| > 0 && (0 <= i < |s| ==> s[i] != pat[0])
    ensures !OccursAt(s, pat, i)
  {
    if 0 <= i && i + |pat| <= |s| {
      assert s[i..i + |pat|][0] == s[i];
    }
  }

  /** get_task_status and end_task report TaskNotFoundError for an 'Error'
      envelope whose error is a dict with a member saying "not found". */
  lemma StructuredNotFound(op: Operation, result: ResultBase, i: int)
    requires op == GetTaskStatus || op == EndTask
    requires IsErrorStatus(result) && result.error.JObj?
    requires 0 <= i < |result.error.members| && SaysNotFound(result.error.members[i].value)
    requires forall j :: i < j < |result.error.members| ==>
               result.error.members[j].key != result.error.members[i].key
    ensures CheckStatus(op, result).Raise? && CheckStatus(op, result).exc.TaskNotFoundError?
  {
    NotFoundInObject(result.error.members, i);
  }

  /** An 'Error' envelope without an error field renders as "None", which
      never says "not found": the generic AparaviError is raised. */
  lemma MissingErrorIsGeneric(op: Operation, data: Json, metrics: Json)
    requires op == GetTaskStatus || op == EndTask
    ensures var r := CheckStatus(op, ResultBase(JStr("Error"), data, JNull, metrics));
      r.Raise? && r.exc.AparaviError?
  {
    assert Str(JNull) == "None";
  }

  /** Python truthiness of the optional `name`: `None` and "" are falsy. */
  predicate NameGiven(name: Option<string>)
  {
    name.Some? && name.value != ""
  }

  /** Python truthiness of the optional `threads`: `None` and 0 are falsy. */
  predicate ThreadsGiven(threads: Option<int>)
  {
    threads.Some? && threads.value != 0
  }

  predicate HasKey(q: Query, key: string)
  {
    exists i :: 0 <= i < |q| && q[i].0 == key
  }

  /** The `params` of start_task: `type` always, then `name` when given, then
      `threads` when given, after checking it lies within 1..16. */
  function TaskQuery(taskType: string, name: Option<string>, threads: Option<int>): (r: Outcome<Query>)
    ensures r.Raise? <==> ThreadsGiven(threads) && !(ThreadsMin <= threads.value <= ThreadsMax)
    ensures r.Raise? ==> r.exc == ValueError("Threads must be between 1 and 16")
    ensures r.Return? ==> |r.value| >= 1 && r.value[0] == ("type", QStr(taskType))
    ensures r.Return? ==> (HasKey(r.value, "name") <==> NameGiven(name))
    ensures r.Return? && NameGiven(name) ==> ("name", QStr(name.value)) in r.value
    ensures r.Return? ==> (HasKey(r.value, "threads") <==> ThreadsGiven(threads))
    ensures r.Return? && ThreadsGiven(threads) ==> ("threads", QInt(threads.value)) in r.value
    ensures r.Return? ==> forall i, j :: 0 <= i < j < |r.value| ==> r.value[i].0 != r.value[j].0
    ensures r.Return? ==>
              |r.value| == 1 + (if NameGiven(name) then 1 else 0) + (if ThreadsGiven(threads) then 1 else 0)
  {
    var base := [("type", QStr(taskType))];
    var withName := if NameGiven(name) then base + [("name", QStr(name.value))] else base;
    assert NameGiven(name) ==> withName[1].0 == "name";
    if !ThreadsGiven(threads) then
      Return(withName)
    else if !(ThreadsMin <= threads.value <= ThreadsMax) then
      Raise(ValueError("Threads must be between 1 and 16"))
    else
      var q := withName + [("threads", QInt(threads.value))];
      assert q[|withName|].0 == "threads";
      assert NameGiven(name) ==> q[1].0 == "name";
      Return(q)
  }

  /** `threads=0` is falsy, so it is left out of the query exactly like an
      absent `threads`: no ValueError is raised for it. */
  lemma ThreadsZeroOmitted(taskType: string, name: Option<string>)
    ensures TaskQuery(taskType, name, Some(0)) == TaskQuery(taskType, name, None)
    ensures TaskQuery(taskType, name, Some(0)).Return?
  {
  }

  /** The `params` of every call that names a running task. */
  function TaskRef(token: string, taskType: string): (r: Query)
    ensures |r| == 2 && r[0].0 != r[1].0
    ensures ("token", QStr(token)) in r && ("type", QStr(taskType)) in r
  {
    [("token", QStr(token)), ("type", QStr(taskType))]
  }

  /** The JSON body uploaded for one file:
      `{"record": {"filename": ..., "content": ..., "encoding": "base64"}}`. */
  function UploadRecord(path: string, content: seq<Base64.byte>): Json
  {
    Record(Basename(path), Base64.Encode(content))
  }

  function Record(filename: string, encoded: string): Json
  {
    JObj([Member("record", JObj([
      Member("filename", JStr(filename)),
      Member("content", JStr(encoded)),
      Member("encoding", JStr("base64"))]))])
  }

  lemma RecordFields(filename: string, encoded: string)
    ensures var j := Record(filename, encoded);
      && j.JObj? && Get(j.members, "record").JObj?
      && var rec := Get(j.members, "record").members;
      && Get(rec, "filename") == JStr(filename)
      && Get(rec, "encoding") == JStr("base64")
      && Get(rec, "content") == JStr(encoded)
  {
    var fields := [
      Member("filename", JStr(filename)),
      Member("content", JStr(encoded)),
      Member("encoding", JStr("base64"))];
    GetUnique([Member("record", JObj(fields))], 0);
    GetUnique(fields, 0);
    GetUnique(fields, 1);
    GetUnique(fields, 2);
  }

  /** What a receiver reads from an upload record: the file's base name, the
      encoding "base64", and a content string that decodes back to exactly
      the file's bytes. */
  lemma UploadRecordContents(path: string, content: seq<Base64.byte>)
    ensures var j := UploadRecord(path, content);
      && j.JObj? && Get(j.members, "record").JObj?
      && var rec := Get(j.members, "record").members;
      && Get(rec, "filename") == JStr(Basename(path))
      && Get(rec, "encoding") == JStr("base64")
      && Get(rec, "content").JStr?
      && Base64.Decode(Get(rec, "content").s) == Some(content)
  {
    RecordFields(Basename(path), Base64.Encode(content));
    Base64.DecodeEncode(content);
  }

}
