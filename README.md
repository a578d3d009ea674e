# Aparavi DTC SDK client, modelled in Dafny

This project models `AparaviClient`, the Python client of the Aparavi Data
Toolchain web services. A client is bound to one base URL and offers six
operations:

- `get_version` (GET /version)
- `validate_pipe` (POST /pipe/validate)
- `start_task` (PUT /task)
- `get_task_status` (GET /task)
- `end_task` (DELETE /task)
- `send_to_webhook_with_file` (one PUT /webhook per matched file, each
  carrying the file's base64 content)

Every operation goes through `_make_request`. It joins the base URL and the
endpoint, sends the request, and classifies the reply:

- 401 raises AuthenticationError.
- 422 raises ValidationError.
- Any other status of 400 or more raises AparaviError.
- A failure of the transport itself raises AparaviError.
- Otherwise the parsed JSON body is returned.

The envelope operations then read `{status, data, error, metrics}` into a
`ResultBase`, and each one decides what a `status` of `'Error'` means for it.

Layout:

- `text.dfy`: the string operations the client uses:
  - `str.lower` and the substring test `in`;
  - `str.rstrip('/')` and `os.path.basename`;
  - decimal rendering of integers.
- `json.dfy`: parsed JSON values, `dict.get` (`Get`) and Python's `str()` of
  a parsed value (`Str`).
- `base64.dfy`: RFC 4648 section 4 encoding, a strict decoder, and both
  round trips.
- `wire.dfy`: the pure decision logic:
  - classification of a reply;
  - reading the envelope;
  - the per-operation status check;
  - the `start_task` query;
  - the upload record.
- `client.dfy`: the `AparaviClient` class. Its fields are the base URL, the
  API key, the timeout and the transport (a function from request to reply).
  A ghost `log` records every request sent. Each operation is a method that
  appends its requests to the log and returns what the source returns or
  raises.

Python's "return or raise" is the `Outcome` datatype (`Return(value)` or
`Raise(exception)`).

## Model

| member | source | states |
|---|---|---|
| Client.AparaviClient.constructor | aparavi_dtc_sdk/client.py:19-35 | the base URL is the given one with trailing slashes stripped; the key, the timeout (30 by default) and the transport are kept; no request has been sent |
| Text.RStripSlashes | aparavi_dtc_sdk/client.py:28 | the result is a prefix of the input, followed in it only by '/' characters, and does not end in '/' |
| Client.AparaviClient.RequestTo | aparavi_dtc_sdk/client.py:54-62 | the request URL is the base URL followed by the endpoint, and for a client endpoint it is a URL the client invariant accepts; the method, query and JSON body are passed on unchanged |
| Client.AparaviClient.MakeRequest | aparavi_dtc_sdk/client.py:37-74 | exactly one request, to base URL + endpoint, is appended to the log; the result is the classification of the transport's reply to it; the client invariant is kept |
| Wire.Classify | aparavi_dtc_sdk/client.py:64-74 | AuthenticationError iff status 401; ValidationError iff 422; AparaviError iff a transport failure or another status of 400 or more; a return iff a response below 400, and then it is the parsed body; the exact messages of each case |
| Text.NatToString | aparavi_dtc_sdk/client.py:69 | a non-negative number renders as decimal digits that denote exactly that number, with no leading zero |
| Text.IntToString | aparavi_dtc_sdk/client.py:69 | the status code in "API error {code}" is rendered with a '-' exactly when it is negative, followed by the digits that denote its magnitude |
| Wire.Envelope | aparavi_dtc_sdk/client.py:92-97 | a ResultBase is built iff the body is an object with a `status` key; `data`, `error` and `metrics` are the `.get` values; KeyError('status') without the key, TypeError for a non-object body |
| Json.Lookup | aparavi_dtc_sdk/client.py:120-125 | `None` iff no member has the key; otherwise the value of the last member with that key |
| Json.Get | aparavi_dtc_sdk/client.py:94-96 | `.get` gives None (JSON null) for an absent key, and otherwise the value of the last member with that key |
| Json.GetUnique | aparavi_dtc_sdk/client.py:120-125 | a key bound once reads back as its value |
| Json.Keys | aparavi_dtc_sdk/client.py:71 | the dict built from a parsed object has each key exactly once, and exactly the keys of the object's members |
| Json.KeysInFirstOccurrenceOrder | aparavi_dtc_sdk/client.py:71 | the dict's keys are in the order of their first occurrence: a key listed before another occurs in the object before any occurrence of the other |
| Json.Str | aparavi_dtc_sdk/client.py:181-184 | `str(error)`: None renders as "None", a string as itself, a list in brackets and a dict in braces; inside a list or dict strings, keys included, are written with `repr` |
| Json.StrDictView | aparavi_dtc_sdk/client.py:181-184 | `str` of an object depends only on the dict it parses to: two member lists with the same keys in the same order and the same value for every key render alike |
| Text.ReprString | aparavi_dtc_sdk/client.py:182 | `repr` of a string is enclosed in `"` iff the string holds `'` and no `"`, and in `'` otherwise |
| Text.EscapeAppend | aparavi_dtc_sdk/client.py:182 | `repr` escapes character by character: escaping distributes over concatenation |
| Text.EscapePlain | aparavi_dtc_sdk/client.py:182 | printable ASCII other than the backslash and the quotes is written by `repr` as it is |
| Client.AparaviClient.GetVersion | aparavi_dtc_sdk/client.py:76-97 | one GET /version is logged; the result is the envelope of the reply, whatever its status |
| Wire.CheckStatus | aparavi_dtc_sdk/client.py:127-253 | a non-'Error' envelope is returned unchanged by every operation; on 'Error', validate_pipe raises PipelineError and start_task AparaviError, each with the error text; get_task_status and end_task raise TaskNotFoundError iff `str(error).lower()` contains "not found", and AparaviError with their own messages otherwise; get_version never raises here. The checks are at lines 127-128, 161-162, 181-184 and 250-253 |
| Client.AparaviClient.ValidatePipe | aparavi_dtc_sdk/client.py:99-130 | one POST /pipe/validate with the pipeline as body is logged; the result is the operation's interpretation of the reply |
| Wire.Interpret | aparavi_dtc_sdk/client.py:114-130 | a transport-level exception passes through unchanged; after a response below 400, an envelope error (KeyError, TypeError) is raised as it is, and a well-formed envelope goes through the operation's status check; a returned result came from a response below 400 whose envelope it is, and it never has status 'Error' except for get_version; a network failure always ends in AparaviError |
| Wire.TaskQuery | aparavi_dtc_sdk/client.py:139-145 | ValueError("Threads must be between 1 and 16") iff threads is truthy and outside 1..16; otherwise `type` comes first, `name` is present iff it is truthy, `threads` is present iff it is truthy, with their values, no key repeats, and there is no other key |
| Wire.ThreadsZeroOmitted | aparavi_dtc_sdk/client.py:142 | `threads=0` gives the same query as no threads, and raises nothing |
| Client.AparaviClient.StartTask | aparavi_dtc_sdk/client.py:132-164 | the task type defaults to "gpu", and name and threads to absent; invalid threads raise ValueError and leave the log unchanged (no request); otherwise one PUT /task carrying the start_task query and the pipeline is logged, and the result is the operation's interpretation of the reply |
| Wire.TaskRef | aparavi_dtc_sdk/client.py:171 | the query of get_task_status, end_task and each upload holds exactly the two distinct keys `token` and `type`, with the given values |
| Client.AparaviClient.GetTaskStatus | aparavi_dtc_sdk/client.py:167-186 | one GET /task with query token and type is logged; the result is the operation's interpretation of the reply |
| Client.AparaviClient.EndTask | aparavi_dtc_sdk/client.py:222-255 | one DELETE /task with query token and type is logged; the result is the operation's interpretation of the reply |
| Text.Lower | aparavi_dtc_sdk/client.py:182 | same length as the input, each character lower-cased |
| Text.LowerAppend | aparavi_dtc_sdk/client.py:182 | lower-casing distributes over concatenation |
| Text.Contains | aparavi_dtc_sdk/client.py:182 | true iff the pattern occurs at some index of the string |
| Text.ContainsInContext | aparavi_dtc_sdk/client.py:182 | an occurrence inside a part is an occurrence in any string containing that part |
| Wire.NotFoundAnyCase | aparavi_dtc_sdk/client.py:182 | any capitalisation of "not found", anywhere in a string error, is recognised |
| Wire.DictKeep | aparavi_dtc_sdk/client.py:182 | an occurrence in the rendering of the value a dict holds for one key occurs in the rendering of the whole dict |
| Wire.LastBindingLookedUp | aparavi_dtc_sdk/client.py:182 | the value of the last member with a key is the value the dict holds for it |
| Wire.ReprKeeps | aparavi_dtc_sdk/client.py:182 | a phrase of printable ASCII without backslash or quotes that the lower-cased `str` of a value contains is still contained in the lower-cased `repr` of the value |
| Wire.NotFoundInRepr | aparavi_dtc_sdk/client.py:182 | a dict error says "not found" when the `repr` of the value the dict keeps for some key does |
| Wire.NewlineRepr | aparavi_dtc_sdk/client.py:182 | `repr` of a newline followed by plain text is the quote, a backslash, the letter n, the text and the quote |
| Wire.EscapedNewlineSaysNotFound | aparavi_dtc_sdk/client.py:181-183 | a dict error `{"k": "\nOT FOUND"}` (any spelling of "ot found" after a newline) raises TaskNotFoundError, because `repr` writes the newline as a backslash followed by the letter n; the same text as a plain string error does not say "not found" |
| Wire.NotFoundInObject | aparavi_dtc_sdk/client.py:182 | a dict error whose value for some key says "not found" is recognised, because the test runs on `str(error)`; the member must be the last one with its key |
| Wire.ShadowedMemberDropped | aparavi_dtc_sdk/client.py:181-184 | for any key and values, an object whose member is overwritten by a later one with the same key renders, and says "not found", exactly as the object with only the later member: `{"k": "Not found", "k": "boom"}` renders as `{'k': 'boom'}` |
| Wire.WithoutLetterN | aparavi_dtc_sdk/client.py:182 | a text without the letter n, in either case, never says "not found" |
| Wire.StructuredNotFound | aparavi_dtc_sdk/client.py:181-183 | get_task_status and end_task raise TaskNotFoundError for an 'Error' envelope whose dict error holds, as the last member with its key, a value saying "not found" |
| Wire.MissingErrorIsGeneric | aparavi_dtc_sdk/client.py:250-253 | an 'Error' envelope without an error renders as "None" and gives the generic AparaviError, never TaskNotFoundError |
| Base64.Symbol | aparavi_dtc_sdk/client.py:202 | every 6-bit value maps to a character of the base64 alphabet |
| Base64.Value | aparavi_dtc_sdk/client.py:202 | the value of an alphabet character is the one the alphabet maps to it |
| Base64.TestVectors | aparavi_dtc_sdk/client.py:202 | the encoding gives the test vectors of section 10 of RFC 4648 ("f", "fo", "foo", "foobar"), which fix the alphabet and the padding |
| Base64.EncodeLength | aparavi_dtc_sdk/client.py:202 | the encoding has 4 characters per started group of 3 bytes |
| Base64.DecodeEncode | aparavi_dtc_sdk/client.py:202 | decoding the encoding of any bytes gives them back |
| Base64.EncodeDecode | aparavi_dtc_sdk/client.py:202 | every text the strict decoder accepts is the encoding of what it decodes to |
| Base64.EncodeInjective | aparavi_dtc_sdk/client.py:202 | different byte strings have different encodings |
| Text.Basename | aparavi_dtc_sdk/client.py:206 | the result is a suffix of the path without '/', preceded in the path by '/' unless it is the whole path |
| Wire.RecordFields | aparavi_dtc_sdk/client.py:204-210 | the body's `record` object reads back the given `filename` and `content`, and `encoding` = "base64" |
| Wire.UploadRecordContents | aparavi_dtc_sdk/client.py:201-210 | the upload record of a file carries its base name, the encoding "base64" and a content string that decodes back to exactly the file's bytes |
| Client.AparaviClient.UploadFile | aparavi_dtc_sdk/client.py:201-218 | one PUT /webhook with query token and type and the file's record as body is logged; the result is the classified reply |
| Client.Run | aparavi_dtc_sdk/client.py:199-220 | the upload loop sends at most one upload per file; a run that returns sent every file and has one reply per file; a run that raises sent at least one |
| Client.Each | aparavi_dtc_sdk/client.py:200 | one element per file |
| Client.EachAt | aparavi_dtc_sdk/client.py:200 | the k-th element belongs to the k-th file |
| Client.RunSucceeds | aparavi_dtc_sdk/client.py:199-220 | the upload loop returns iff every file's upload succeeds; then every file was sent and the replies are the files' replies, in order |
| Client.RunFails | aparavi_dtc_sdk/client.py:212-218 | when the loop raises, the last file sent raised that exception, every file before it succeeded, and at least one and at most all files were sent |
| Client.RunStops | aparavi_dtc_sdk/client.py:200-218 | once an upload has failed, the remaining files change nothing |
| Client.AparaviClient.SendToWebhookWithFile | aparavi_dtc_sdk/client.py:189-220 | no file gives ValueError("No files matched pattern: ...") and no request; otherwise the result is the run of the uploads in the given order, and the log gained exactly the upload requests of the files that run sent |

## Left out

- HTTP itself is not modelled: the session, the `Authorization` and
  `Content-Type` headers, the timeout value and connection handling. The
  transport is a function from request to reply, so the same request always
  gets the same reply.
- JSON decoding of the response body is taken as done. The parsed object
  keeps its members as written; the dict Python builds from it (each key
  once, at its first position, with its last value) is what Json.Get and
  Json.Str read. A body that is not JSON, which `requests` reports as a `RequestException`, is not modelled.
- Json.Str: renders only what the model's JSON values can hold. Numbers are
  integers (no floats). `repr` of a string escapes the backslash, the chosen
  quote, newline, carriage return, tab and the other ASCII control
  characters as Python does; non-ASCII characters that Python does not
  consider printable (which it writes as `\x`, `\u` or `\U` escapes) are
  kept as they are. That changes the message text but not the "not found"
  test: such an escape is a backslash followed by x, u or U and hex digits,
  which never spells "not found".
- Text.Lower: lower-cases ASCII letters only, where Python's `str.lower`
  covers all of Unicode.
- `glob.glob` and `open(...).read()` are not modelled. The matched files and
  their bytes are an input to SendToWebhookWithFile, in the order the glob
  returned them.
- aparavi_dtc_sdk/models.py and aparavi_dtc_sdk/exceptions.py are not part of
  this model. `ResultBase` and the exceptions are plain datatypes.
- Text.Basename: models `os.path.basename` for POSIX paths, splitting only at
  '/'. On Windows it also splits at `\` and after a drive letter, so the
  upload record's `filename` can differ there.
- The `task_type` of end_task is typed `Literal["gpu", "cpu"]` in the source,
  but nothing checks it at run time. The model takes any string.
- The source checks `threads` with `if threads:`, so `threads=0` is silently
  left out of the query instead of being rejected (Wire.ThreadsZeroOmitted).
- get_version does not check the envelope status, so an 'Error' envelope is
  returned to its caller rather than raised. The model follows the code
  (Wire.CheckStatus).
- The package re-exports in aparavi_dtc_sdk/__init__.py and
  aparavi-dtc-sdk/__init__.py and setup.py hold no
  client behaviour and are not modelled.
