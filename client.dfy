/** `AparaviClient` (aparavi_dtc_sdk/client.py): a client bound to one base
    URL that issues one HTTP request per operation (several for a webhook
    upload) and turns each reply into a result or an exception. The HTTP
    session is the `transport` function; `log` records, in order, every
    request the client has sent. */
module Client {
  import opened Text
  import opened Json
  import opened Wire
  import Base64

  /** A file matched by the glob of send_to_webhook_with_file, with the
      bytes read from it. */
  datatype LocalFile = LocalFile(path: string, content: seq<Base64.byte>)

  /** Where a run of uploads stands: its outcome so far and the number of
      uploads sent. */
  datatype Progress = Progress(outcome: Outcome<seq<Json>>, sent: nat)

  lemma AppendOne<T>(a: seq<T>, b: seq<T>, x: T)
    ensures a + b + [x] == a + (b + [x])
  {
  }

  /** `f` applied to each file, in order. */
  function Each<T>(f: LocalFile -> T, files: seq<LocalFile>): (r: seq<T>)
    ensures |r| == |files|
  {
    if files == [] then [] else Each(f, files[..|files| - 1]) + [f(files[|files| - 1])]
  }

  /** The k-th element of `Each(f, files)` is `f` of the k-th file. */
  lemma {:induction false} EachAt<T>(f: LocalFile -> T, files: seq<LocalFile>, k: int)
    requires 0 <= k < |files|
    ensures Each(f, files)[k] == f(files[k])
    decreases |files|
  {
    var init := files[..|files| - 1];
    if k < |init| {
      EachAt(f, init, k);
    }
  }

  lemma EachSnoc<T>(f: LocalFile -> T, files: seq<LocalFile>, i: int)
    requires 0 <= i < |files|
    ensures Each(f, files[..i + 1]) == Each(f, files[..i]) + [f(files[i])]
  {
    assert files[..i + 1][..i] == files[..i];
  }

  /** Uploading `files` one after the other with `upload`, stopping at the
      first failure: the outcome, and how many uploads were sent. */
  function Run(upload: LocalFile -> Outcome<Json>, files: seq<LocalFile>): (r: Progress)
    ensures r.sent <= |files|
    ensures r.outcome.Return? ==> r.sent == |files| == |r.outcome.value|
    ensures r.outcome.Raise? ==> r.sent >= 1
    decreases |files|
  {
    if files == [] then Progress(Return([]), 0)
    else
      var prior := Run(upload, files[..|files| - 1]);
      if prior.outcome.Raise? then prior
      else
        match upload(files[|files| - 1])
        case Raise(e) => Progress(Raise(e), prior.sent + 1)
        case Return(reply) => Progress(Return(prior.outcome.value + [reply]), prior.sent + 1)
  }

  /** Extending a run by one file: a failed run stays as it is, otherwise
      the file is uploaded and its reply appended or its exception raised. */
  lemma RunSnoc(upload: LocalFile -> Outcome<Json>, files: seq<LocalFile>, i: int)
    requires 0 <= i < |files|
    ensures var prior := Run(upload, files[..i]);
      Run(upload, files[..i + 1]) ==
        if prior.outcome.Raise? then prior
        else match upload(files[i])
          case Raise(e) => Progress(Raise(e), prior.sent + 1)
          case Return(reply) => Progress(Return(prior.outcome.value + [reply]), prior.sent + 1)
  {
    assert files[..i + 1][..i] == files[..i];
  }

  /** A run succeeds exactly when every file's upload succeeds; then every
      file was sent and the replies are the files' replies, in order. */
  lemma {:induction false} RunSucceeds(upload: LocalFile -> Outcome<Json>, files: seq<LocalFile>)
    ensures Run(upload, files).outcome.Return? <==> forall k :: 0 <= k < |files| ==> upload(files[k]).Return?
    ensures var p := Run(upload, files);
      p.outcome.Return? ==>
        && p.sent == |files| == |p.outcome.value|
        && forall k :: 0 <= k < |files| ==> upload(files[k]) == Return(p.outcome.value[k])
    decreases |files|
  {
    if files != [] {
      var init := files[..|files| - 1];
      RunSucceeds(upload, init);
      assert forall k :: 0 <= k < |init| ==> init[k] == files[k];
    }
  }

  /** A failed run stopped at its first failing file: the files before it
      were accepted, the last one sent raised the run's exception, and none
      after it was sent. */
  lemma {:induction false} RunFails(upload: LocalFile -> Outcome<Json>, files: seq<LocalFile>)
    ensures var p := Run(upload, files);
      p.outcome.Raise? ==>
        && 1 <= p.sent <= |files|
        && upload(files[p.sent - 1]) == Raise(p.outcome.exc)
        && forall k :: 0 <= k < p.sent - 1 ==> upload(files[k]).Return?
    decreases |files|
  {
    if files != [] {
      var init := files[..|files| - 1];
      RunFails(upload, init);
      RunSucceeds(upload, init);
      assert forall k :: 0 <= k < |init| ==> init[k] == files[k];
    }
  }

  /** Once an upload has failed, the files after it change nothing. */
  lemma {:induction false} RunStops(upload: LocalFile -> Outcome<Json>, files: seq<LocalFile>, n: int)
    requires 0 <= n <= |files| && Run(upload, files[..n]).outcome.Raise?
    ensures Run(upload, files) == Run(upload, files[..n])
    decreases |files|
  {
    if n < |files| {
      var init := files[..|files| - 1];
      assert init[..n] == files[..n];
      RunStops(upload, init, n);
    } else {
      assert files[..n] == files;
    }
  }

  class AparaviClient {
    /** `base_url` with trailing slashes removed. */
    const baseUrl: string
    const apiKey: string
    /** Seconds, passed to every request; the transport's business. */
    const timeout: int
    /** The HTTP session: the reply the server (or the network) gives to a
        request. */
    const transport: Request -> Reply
    /** Every request sent so far, oldest first. */
    ghost var log: seq<Request>

    /** `url` is the base URL followed by one of the client's endpoints. */
    predicate IsEndpointUrl(url: string)
    {
      |baseUrl| <= |url| && url[..|baseUrl|] == baseUrl && url[|baseUrl|..] in Endpoints
    }

    /** The base URL never ends in '/', and every request went to one of
        the client's endpoints under it. */
    ghost predicate Valid()
      reads this
    {
      && (baseUrl == [] || baseUrl[|baseUrl| - 1] != '/')
      && forall i :: 0 <= i < |log| ==> IsEndpointUrl(log[i].url)
    }

    constructor (baseUrl: string, apiKey: string, transport: Request -> Reply, timeout: int := 30)
      ensures this.baseUrl == RStripSlashes(baseUrl)
      ensures this.apiKey == apiKey && this.timeout == timeout && this.transport == transport
      ensures log == []
      ensures Valid()
    {
      this.baseUrl := RStripSlashes(baseUrl);
      this.apiKey := apiKey;
      this.timeout := timeout;
      this.transport := transport;
      log := [];
    }

    /** The request an operation sends to `endpoint`. */
    function RequestTo(verb: Verb, endpoint: string, params: Query, body: Option<Json>): (req: Request)
      ensures |baseUrl| <= |req.url| && req.url[..|baseUrl|] == baseUrl && req.url[|baseUrl|..] == endpoint
      ensures endpoint in Endpoints ==> IsEndpointUrl(req.url)
      ensures req.verb == verb && req.params == params && req.body == body
    {
      var url := baseUrl + endpoint;
      assert url[..|baseUrl|] == baseUrl && url[|baseUrl|..] == endpoint;
      Request(verb, url, params, body)
    }

    /** The request that uploads one file to the webhook of a task. */
    function UploadRequest(token: string, taskType: string, file: LocalFile): Request
    {
      RequestTo(PUT, WebhookPath, TaskRef(token, taskType), Some(UploadRecord(file.path, file.content)))
    }

    /** The request that uploads each file. */
    function Sender(token: string, taskType: string): LocalFile -> Request
    {
      file => UploadRequest(token, taskType, file)
    }

    /** The reply the server gives to the upload of one file, as classified
        by `_make_request`. */
    function Upload(token: string, taskType: string, file: LocalFile): Outcome<Json>
    {
      Classify(transport(UploadRequest(token, taskType, file)))
    }

    function Uploader(token: string, taskType: string): LocalFile -> Outcome<Json>
    {
      file => Upload(token, taskType, file)
    }

    /** `_make_request`: sends one request to `baseUrl + endpoint` and
        classifies the reply. */
    method MakeRequest(verb: Verb, endpoint: string, params: Query, body: Option<Json>) returns (r: Outcome<Json>)
      requires Valid() && endpoint in Endpoints
      modifies this
      ensures Valid()
      ensures log == old(log) + [RequestTo(verb, endpoint, params, body)]
      ensures r == Classify(transport(RequestTo(verb, endpoint, params, body)))
    {
      var request := RequestTo(verb, endpoint, params, body);
      log := log + [request];
      var reply := transport(request);
      r := Classify(reply);
    }

    /** `get_version`: GET /version; the envelope is returned whatever its
        status. */
    method GetVersion() returns (r: Outcome<ResultBase>)
      requires Valid()
      modifies this
      ensures Valid()
      ensures log == old(log) + [RequestTo(GET, VersionPath, [], None)]
      ensures r == Interpret(Operation.GetVersion, transport(RequestTo(GET, VersionPath, [], None)))
    {
      var response := MakeRequest(GET, VersionPath, [], None);
      if response.Raise? {
        return Raise(response.exc);
      }
      r := Envelope(response.value);
    }

    /** `validate_pipe`: POST /pipe/validate with the pipeline as body; an
        'Error' envelope raises PipelineError. */
    method ValidatePipe(pipeline: Json) returns (r: Outcome<ResultBase>)
      requires Valid()
      modifies this
      ensures Valid()
      ensures log == old(log) + [RequestTo(POST, ValidatePath, [], Some(pipeline))]
      ensures r == Interpret(Operation.ValidatePipe, transport(RequestTo(POST, ValidatePath, [], Some(pipeline))))
    {
      var response := MakeRequest(POST, ValidatePath, [], Some(pipeline));
      if response.Raise? {
        return Raise(response.exc);
      }
      var result := Envelope(response.value);
      if result.Raise? {
        return result;
      }
      r := CheckStatus(Operation.ValidatePipe, result.value);
    }

    /** `start_task`: builds the query (`type`, then `name` when truthy, then
        `threads` when truthy and within 1..16), then PUT /task with the
        pipeline as body. Out-of-range threads raise ValueError before any
        request is sent. */
    method StartTask(pipeline: Json, taskType: string := "gpu", name: Option<string> := None,
                     threads: Option<int> := None)
      returns (r: Outcome<ResultBase>)
      requires Valid()
      modifies this
      ensures Valid()
      ensures TaskQuery(taskType, name, threads).Raise? ==>
                r == Raise(TaskQuery(taskType, name, threads).exc) && log == old(log)
      ensures TaskQuery(taskType, name, threads).Return? ==>
                var req := RequestTo(PUT, TaskPath, TaskQuery(taskType, name, threads).value, Some(pipeline));
                log == old(log) + [req] && r == Interpret(Operation.StartTask, transport(req))
    {
      var params: Query := [("type", QStr(taskType))];
      if name.Some? && name.value != "" {
        params := params + [("name", QStr(name.value))];
      }
      if threads.Some? && threads.value != 0 {
        if !(ThreadsMin <= threads.value <= ThreadsMax) {
          return Raise(ValueError("Threads must be between 1 and 16"));
        }
        params := params + [("threads", QInt(threads.value))];
      }
      assert TaskQuery(taskType, name, threads) == Return(params);
      var response := MakeRequest(PUT, TaskPath, params, Some(pipeline));
      if response.Raise? {
        return Raise(response.exc);
      }
      var result := Envelope(response.value);
      if result.Raise? {
        return result;
      }
      r := CheckStatus(Operation.StartTask, result.value);
    }

    /** `get_task_status`: GET /task with the token and type as query. */
    method GetTaskStatus(token: string, taskType: string) returns (r: Outcome<ResultBase>)
      requires Valid()
      modifies this
      ensures Valid()
      ensures log == old(log) + [RequestTo(GET, TaskPath, TaskRef(token, taskType), None)]
      ensures r == Interpret(Operation.GetTaskStatus, transport(RequestTo(GET, TaskPath, TaskRef(token, taskType), None)))
    {
      var response := MakeRequest(GET, TaskPath, TaskRef(token, taskType), None);
      if response.Raise? {
        return Raise(response.exc);
      }
      var result := Envelope(response.value);
      if result.Raise? {
        return result;
      }
      r := CheckStatus(Operation.GetTaskStatus, result.value);
    }

    /** `end_task`: DELETE /task with the token and type as query. */
    method EndTask(token: string, taskType: string) returns (r: Outcome<ResultBase>)
      requires Valid()
      modifies this
      ensures Valid()
      ensures log == old(log) + [RequestTo(DELETE, TaskPath, TaskRef(token, taskType), None)]
      ensures r == Interpret(Operation.EndTask, transport(RequestTo(DELETE, TaskPath, TaskRef(token, taskType), None)))
    {
      var response := MakeRequest(DELETE, TaskPath, TaskRef(token, taskType), None);
      if response.Raise? {
        return Raise(response.exc);
      }
      var result := Envelope(response.value);
      if result.Raise? {
        return result;
      }
      r := CheckStatus(Operation.EndTask, result.value);
    }

    /** One iteration of the upload loop of send_to_webhook_with_file: the
        file's record, PUT to /webhook under the task's token and type. */
    method UploadFile(token: string, taskType: string, file: LocalFile) returns (r: Outcome<Json>)
      requires Valid()
      modifies this
      ensures Valid()
      ensures log == old(log) + [UploadRequest(token, taskType, file)]
      ensures r == Upload(token, taskType, file)
    {
      var record := UploadRecord(file.path, file.content);
      r := MakeRequest(PUT, WebhookPath, TaskRef(token, taskType), Some(record));
    }

    /** `send_to_webhook_with_file`: with no matched file, ValueError and no
        request; otherwise one PUT /webhook per file, in the order given,
        collecting the parsed replies, until the first failing upload, whose
        exception ends the operation. */
    method SendToWebhookWithFile(token: string, taskType: string, fileGlob: string, files: seq<LocalFile>)
      returns (r: Outcome<seq<Json>>)
      requires Valid()
      modifies this
      ensures Valid()
      ensures files == [] ==>
                r == Raise(ValueError("No files matched pattern: " + fileGlob)) && log == old(log)
      ensures files != [] ==>
                var run := Run(Uploader(token, taskType), files);
                && r == run.outcome
                && run.sent <= |files|
                && log == old(log) + Each(Sender(token, taskType), files[..run.sent])
    {
      if |files| == 0 {
        return Raise(ValueError("No files matched pattern: " + fileGlob));
      }
      ghost var upload, send := Uploader(token, taskType), Sender(token, taskType);
      var responses: seq<Json> := [];
      var i := 0;
      while i < |files|
        invariant i <= |files|
        invariant Valid()
        invariant Run(upload, files[..i]) == Progress(Return(responses), i)
        invariant log == old(log) + Each(send, files[..i])
      {
        EachSnoc(send, files, i);
        AppendOne(old(log), Each(send, files[..i]), send(files[i]));
        RunSnoc(upload, files, i);
        var response := UploadFile(token, taskType, files[i]);
        assert upload(files[i]) == response;
        if response.Raise? {
          assert Run(upload, files[..i + 1]) == Progress(Raise(response.exc), i + 1);
          RunStops(upload, files, i + 1);
          return Raise(response.exc);
        }
        responses := responses + [response.value];
        i := i + 1;
      }
      assert files[..i] == files;
      r := Return(responses);
    }
  }
}
