# Apollo3zehn OpenAPI client generator (C#): client engine and signature derivation

This project models two parts of the OpenAPI client generator for C# in Dafny and proves properties about them.

**The client engine.** `CSharpTemplate.cs` is the hand-written core of every generated client. The model covers:

- the credential state: the token pair, the token file in the shared per-user token folder, and the default request headers;
- `SignInAsync`;
- the single-flight `RefreshTokenAsync`, with its guard against a refresh token that was already redeemed;
- `SignOut`, `AttachConfiguration` and `ClearConfiguration`;
- `InvokeAsync`, with its one refresh-and-resend on a 401 that announces an expired token, its error codes and its disposal of responses;
- the binary frame reader `ReadAsDoubleAsync`;
- `LoadAsync`, which fetches several resources and reports progress;
- `ExportAsync`: the poll loop, the 32 KiB download loop with throttled progress, extraction, and best-effort deletion of the temporary file.

**The generator.** `CSharpGenerator.cs` derives C# types and method signatures from an OpenAPI document. The model covers:

- the mapping from schema to C# type (`GetType` for schemas and for media types);
- `ApplyRequired` and `GetParameterToStringCode`;
- `GetMethodSignature`: its error order, the path and query filter, the body parameter, and the "required first" ordering by `OrderByDescending`;
- the declared return type;
- the method-name suffixes per media type;
- `GetFirstLine`;
- the version identifiers of `Generate`;
- the query-string code that `AppendImplementationMethodSourceText` emits.

**How it is built.** Each operation is specified by a pure function. Operations that change state, or that loop in the source, are methods:

- the `Client` class, whose fields are the client's fields;
- the buffer-filling loops over `array<byte>`;
- the poll, copy and load loops;
- the emission loops.

Each method is proved equal to its specification function. The properties are lemmas about those functions.

Some parts of the source are parameters of the model:

- the network: responses, the token endpoint's reply, and the job's polls;
- the clock: `elapsed(k)` says whether the one-second threshold had passed at read `k`;
- the SHA-256 digest of the refresh token;
- the operation-name callback of the settings;
- JSON deserialisation.

Modules:

| module | models |
|---|---|
| `Wrappers` | `Option` and `Result` |
| `Text` | the string operations both files rely on |
| `Streams` | `Stream.Read` on a body delivered in chunks |
| `Frames` | `ReadAsDoubleAsync` |
| `ApiClient` | credentials and `InvokeAsync` |
| `Loader` | `LoadAsync` |
| `Export` | `ExportAsync` |
| `Schemas` | type mapping |
| `Signatures` | `GetMethodSignature` and its helpers |
| `Emission` | version identifiers and query-string emission |

## Model

In the source column, `T` stands for `src/Apollo3zehn.OpenApiClientGenerator/Templates/CSharpTemplate.cs` and `G` for `src/Apollo3zehn.OpenApiClientGenerator/Generators/CSharpGenerator.cs`; the cells spell the paths out.

| member | source | states |
|---|---|---|
| `Text.ReplaceChar` | src/Apollo3zehn.OpenApiClientGenerator/Generators/CSharpGenerator.cs:50-51 | same length; every '.' becomes '_' and every other character stays |
| `Text.SplitSpaces` | src/Apollo3zehn.OpenApiClientGenerator/Generators/CSharpGenerator.cs:509 | splitting at spaces always yields at least one piece |
| `Text.SplitNoSpace` | src/Apollo3zehn.OpenApiClientGenerator/Generators/CSharpGenerator.cs:509 | a text without spaces splits into itself alone |
| `Text.SplitAfterWord` | src/Apollo3zehn.OpenApiClientGenerator/Generators/CSharpGenerator.cs:509 | `a + " " + b` with no space in `a` splits into `a` followed by the pieces of `b` |
| `Text.ToUpper` | src/Apollo3zehn.OpenApiClientGenerator/Generators/CSharpGenerator.cs:59-60 | a letter becomes upper case; letters stay letters; anything but a lower-case letter is unchanged |
| `Text.FirstCharToUpper` | src/Apollo3zehn.OpenApiClientGenerator/Generators/CSharpGenerator.cs:59-60 | same length; only the first character changes, to its upper-case form |
| `Text.FirstLine` | src/Apollo3zehn.OpenApiClientGenerator/Generators/CSharpGenerator.cs:835-836 | nothing exactly for the empty text; otherwise a prefix without line breaks, followed by a line break or by the end of the text |
| `Text.Decimal` | src/Apollo3zehn.OpenApiClientGenerator/Templates/CSharpTemplate.cs:194 | the decimal digits of a status code: non-empty, digits only, and the first digit is '0' only for 0 (no leading zero) |
| `Text.DecimalRoundTrip` | src/Apollo3zehn.OpenApiClientGenerator/Templates/CSharpTemplate.cs:194 | reading the digits back gives the number |
| `Text.DecimalInjective` | src/Apollo3zehn.OpenApiClientGenerator/Templates/CSharpTemplate.cs:194 | different numbers have different digits |
| `Streams.ReadChunk` | src/Apollo3zehn.OpenApiClientGenerator/Templates/CSharpTemplate.cs:504 | a read returns at most the room asked for, and returns nothing exactly at the end of the stream |
| `Streams.ReadKeepsOrder` | src/Apollo3zehn.OpenApiClientGenerator/Templates/CSharpTemplate.cs:504-507 | the bytes a read returns, followed by what is left, are the stream's bytes: nothing lost, nothing reordered |
| `Streams.Read` | src/Apollo3zehn.OpenApiClientGenerator/Templates/CSharpTemplate.cs:390-397 | the bytes of one read land in the buffer at the offset; the buffer before the offset is untouched |
| `Streams.EmptyStream` | src/Apollo3zehn.OpenApiClientGenerator/Templates/CSharpTemplate.cs:394-395 | a stream holds no bytes exactly when it has no chunks |
| `Frames.Group` | src/Apollo3zehn.OpenApiClientGenerator/Templates/CSharpTemplate.cs:384-386 | a buffer of 8k bytes gives k samples |
| `Frames.FlattenGroup` | src/Apollo3zehn.OpenApiClientGenerator/Templates/CSharpTemplate.cs:384-400 | the samples, put back together, are the buffer: grouping loses nothing |
| `Frames.Decode` | src/Apollo3zehn.OpenApiClientGenerator/Templates/CSharpTemplate.cs:367-401 | a decoded body declared 8 bytes per sample; an unknown length always fails with its error |
| `Frames.DecodeExact` | src/Apollo3zehn.OpenApiClientGenerator/Templates/CSharpTemplate.cs:367-401 | a successful read declared 8 bytes per sample and returns exactly the first that many bytes of the body, in order |
| `Frames.FillStep` | src/Apollo3zehn.OpenApiClientGenerator/Templates/CSharpTemplate.cs:390-398 | one read keeps "buffer so far + rest of stream = whole body" |
| `Frames.ReadAsDoubles` | src/Apollo3zehn.OpenApiClientGenerator/Templates/CSharpTemplate.cs:367-401 | gives the decoded body or its error; the errors are unknown length, a length that is not a multiple of 8, a negative length, and a stream that ends early; a zero length makes no read; reads never outnumber bytes |
| `ApiClient.RemoveHeader` | src/Apollo3zehn.OpenApiClientGenerator/Templates/CSharpTemplate.cs:298 | the key is gone; every other header is unchanged |
| `ApiClient.AddHeader` | src/Apollo3zehn.OpenApiClientGenerator/Templates/CSharpTemplate.cs:285 | one value is appended under the key; every other header is unchanged |
| `ApiClient.AfterSignOut` | src/Apollo3zehn.OpenApiClientGenerator/Templates/CSharpTemplate.cs:296-300 | no token pair and no Authorization header; other headers, token file path and files are unchanged |
| `ApiClient.SignOutIdempotent` | src/Apollo3zehn.OpenApiClientGenerator/Templates/CSharpTemplate.cs:296-300 | signing out twice is signing out once |
| `ApiClient.AfterRefresh` | src/Apollo3zehn.OpenApiClientGenerator/Templates/CSharpTemplate.cs:277-287 | the new pair is held; Authorization is exactly "Bearer " plus the access token; other headers are kept; the new refresh token is persisted exactly when a token file path is set |
| `ApiClient.RefreshSpec` | src/Apollo3zehn.OpenApiClientGenerator/Templates/CSharpTemplate.cs:262-294 | a stale or failed refresh leaves the state unchanged; a successful one holds exactly the endpoint's new pair |
| `ApiClient.RefreshGuard` | src/Apollo3zehn.OpenApiClientGenerator/Templates/CSharpTemplate.cs:268-270 | a token other than the held refresh token changes nothing; with no pair held the refresh is always attempted; the refresh succeeds exactly when the endpoint answers and the guard lets it through |
| `ApiClient.RefreshSingleFlight` | src/Apollo3zehn.OpenApiClientGenerator/Templates/CSharpTemplate.cs:264-287 | when two refreshes with the same token run one after the other and the first rotates the token, the second is stale and changes nothing |
| `ApiClient.BeforeSignInRefresh` | src/Apollo3zehn.OpenApiClientGenerator/Templates/CSharpTemplate.cs:109-121 | the token file path is set, and the file holds the token that will be redeemed |
| `ApiClient.SignInSpec` | src/Apollo3zehn.OpenApiClientGenerator/Templates/CSharpTemplate.cs:102-124 | after sign-in the token file path is the one for the initial token and that file exists; a successful sign-in leaves the rotated refresh token in it |
| `ApiClient.SignInResumesRotatedToken` | src/Apollo3zehn.OpenApiClientGenerator/Templates/CSharpTemplate.cs:102-124 | a later sign-in with the same initial token, sharing the token folder, redeems the rotated token left in the file |
| `ApiClient.BuildRequest` | src/Apollo3zehn.OpenApiClientGenerator/Templates/CSharpTemplate.cs:239-260 | method, URL, content and Accept as given; a content type only when there is content; streaming always on |
| `ApiClient.StatusCodeInjective` | src/Apollo3zehn.OpenApiClientGenerator/Templates/CSharpTemplate.cs:194 | different statuses give different "N00." codes |
| `ApiClient.InvokeSpec` | src/Apollo3zehn.OpenApiClientGenerator/Templates/CSharpTemplate.cs:143-235 | afterwards the credentials are unchanged, signed out, or the refreshed pair; the token file path is never changed; the raw response is returned only when asked for |
| `ApiClient.RetryPolicy` | src/Apollo3zehn.OpenApiClientGenerator/Templates/CSharpTemplate.cs:155-189 | one or two sends. There is a second send exactly on a 401 while signed in, whose challenge announces expiry and whose refresh succeeds. The second send repeats the request with the new bearer token |
| `ApiClient.SignOutPolicy` | src/Apollo3zehn.OpenApiClientGenerator/Templates/CSharpTemplate.cs:155-189 | a 401 while signed in signs out unless both the refresh and the resend succeed; anything other than such a 401 leaves the state alone; a successful resend leaves the refreshed state |
| `ApiClient.ResultMapping` | src/Apollo3zehn.OpenApiClientGenerator/Templates/CSharpTemplate.cs:191-234 | the final response gives the error "N00." plus its status (with the body only when it is not blank), nothing, the response itself, or the value ("N01" when parsing fails). The list of released responses is stated exactly |
| `ApiClient.TokenStore.constructor` | src/Apollo3zehn.OpenApiClientGenerator/Templates/CSharpTemplate.cs:63 | the shared token folder starts with the given files |
| `ApiClient.Client.constructor` | src/Apollo3zehn.OpenApiClientGenerator/Templates/CSharpTemplate.cs:84-92 | the client starts with no token pair and no token file path, and keeps the HTTP client's base address and default request headers as they are |
| `ApiClient.NewClient` | src/Apollo3zehn.OpenApiClientGenerator/Templates/CSharpTemplate.cs:84-92 | construction fails with "The base address of the HTTP client must be set." exactly when the base address is unset; otherwise a fresh client as the constructor states |
| `ApiClient.Client.SignIn` | src/Apollo3zehn.OpenApiClientGenerator/Templates/CSharpTemplate.cs:102-124 | the new state and outcome are those of the sign-in specification |
| `ApiClient.Client.AttachConfiguration` | src/Apollo3zehn.OpenApiClientGenerator/Templates/CSharpTemplate.cs:127-135 | the configuration header holds exactly the new value; credentials are unchanged |
| `ApiClient.Client.ClearConfiguration` | src/Apollo3zehn.OpenApiClientGenerator/Templates/CSharpTemplate.cs:138-141 | the configuration header is removed; credentials are unchanged |
| `ApiClient.Client.Refresh` | src/Apollo3zehn.OpenApiClientGenerator/Templates/CSharpTemplate.cs:262-294 | the new state and outcome are those of the refresh specification: stale guard, failure without change, or the new pair installed |
| `ApiClient.Client.SignOut` | src/Apollo3zehn.OpenApiClientGenerator/Templates/CSharpTemplate.cs:296-300 | the state after sign-out; the client is no longer authenticated |
| `ApiClient.Client.Invoke` | src/Apollo3zehn.OpenApiClientGenerator/Templates/CSharpTemplate.cs:143-235 | outcome, sends, released responses and new state are those of the invocation specification |
| `Loader.StringProperty` | src/Apollo3zehn.OpenApiClientGenerator/Templates/CSharpTemplate.cs:335-347 | a value exactly when the properties exist and hold a string under the key, and then that string |
| `Loader.LoadSpec` | src/Apollo3zehn.OpenApiClientGenerator/Templates/CSharpTemplate.cs:318-365 | on success every resource path is a key of the result |
| `Loader.Processed` | src/Apollo3zehn.OpenApiClientGenerator/Templates/CSharpTemplate.cs:329-362 | never more items than there are |
| `Loader.Progress` | src/Apollo3zehn.OpenApiClientGenerator/Templates/CSharpTemplate.cs:360-361 | one progress value per inserted item |
| `Loader.FailureIsFinal` | src/Apollo3zehn.OpenApiClientGenerator/Templates/CSharpTemplate.cs:329-332 | once a prefix fails, later items change neither the result nor the count |
| `Loader.FirstFailureDecides` | src/Apollo3zehn.OpenApiClientGenerator/Templates/CSharpTemplate.cs:329-364 | success exactly when every item loads; otherwise the error is that of the first failing item, and all items before it loaded |
| `Loader.PathsOfLonger` | src/Apollo3zehn.OpenApiClientGenerator/Templates/CSharpTemplate.cs:351 | the paths of a longer list are the shorter list's paths plus the new one |
| `Loader.LoadedKeys` | src/Apollo3zehn.OpenApiClientGenerator/Templates/CSharpTemplate.cs:351 | on success the map's keys are exactly the resource paths |
| `Loader.LoadedValues` | src/Apollo3zehn.OpenApiClientGenerator/Templates/CSharpTemplate.cs:351-358 | with distinct paths, each path maps to its own item's decoded response |
| `Loader.ProgressAt` | src/Apollo3zehn.OpenApiClientGenerator/Templates/CSharpTemplate.cs:360-361 | the i-th report is (i+1)/n |
| `Loader.ProgressShape` | src/Apollo3zehn.OpenApiClientGenerator/Templates/CSharpTemplate.cs:360-361 | reports strictly increase, lie in (0, 1], and end at exactly 1 when every item loaded |
| `Loader.ProgressLast` | src/Apollo3zehn.OpenApiClientGenerator/Templates/CSharpTemplate.cs:360-361 | the last of n reports is 1 |
| `Loader.ProgressIncreasing` | src/Apollo3zehn.OpenApiClientGenerator/Templates/CSharpTemplate.cs:360-361 | a later report is larger |
| `Loader.ProgressBounded` | src/Apollo3zehn.OpenApiClientGenerator/Templates/CSharpTemplate.cs:360-361 | every report lies in (0, 1] |
| `Loader.ProgressStep` | src/Apollo3zehn.OpenApiClientGenerator/Templates/CSharpTemplate.cs:360 | adding 1/n to i/n gives (i+1)/n, the next report |
| `Loader.LoadStep` | src/Apollo3zehn.OpenApiClientGenerator/Templates/CSharpTemplate.cs:329-362 | one more item either fails the call with its own error or is inserted under its path |
| `Loader.Load` | src/Apollo3zehn.OpenApiClientGenerator/Templates/CSharpTemplate.cs:318-365 | result is the load specification's; the callback sees one report per inserted item, none without a callback |
| `Export.FirstTerminalDecides` | src/Apollo3zehn.OpenApiClientGenerator/Templates/CSharpTemplate.cs:444-468 | the first terminal poll (a cancelled wait, a failing status query, a cancelled, failed or completed job) decides how the wait ends; the polls before it report their progress in order |
| `Export.NoTerminalKeepsWaiting` | src/Apollo3zehn.OpenApiClientGenerator/Templates/CSharpTemplate.cs:444-468 | without a terminal poll the wait has not ended |
| `Export.PollReportsBelowOne` | src/Apollo3zehn.OpenApiClientGenerator/Templates/CSharpTemplate.cs:466-467 | every report of the wait is an "export" report below 1 |
| `Export.PollSpec` | src/Apollo3zehn.OpenApiClientGenerator/Templates/CSharpTemplate.cs:444-468 | at most one report per poll; the wait is still running only when no poll was terminal |
| `Export.ReadSizes` | src/Apollo3zehn.OpenApiClientGenerator/Templates/CSharpTemplate.cs:504 | every read of the copy loop gets between 1 and 32768 bytes |
| `Export.ReadSizesCover` | src/Apollo3zehn.OpenApiClientGenerator/Templates/CSharpTemplate.cs:504-507 | the read sizes add up to the whole stream |
| `Export.DownloadReportBounded` | src/Apollo3zehn.OpenApiClientGenerator/Templates/CSharpTemplate.cs:513-516 | a download report after a read needs a known length, and lies below 1 and above the share copied before the read |
| `Export.ReportsBelowOne` | src/Apollo3zehn.OpenApiClientGenerator/Templates/CSharpTemplate.cs:504-519 | every report of the copy loop is a "download" report below 1 |
| `Export.ReportsBounded` | src/Apollo3zehn.OpenApiClientGenerator/Templates/CSharpTemplate.cs:504-519 | copy-loop reports need a known length and lie above the share already copied |
| `Export.ReportsIncrease` | src/Apollo3zehn.OpenApiClientGenerator/Templates/CSharpTemplate.cs:504-519 | copy-loop reports strictly increase |
| `Export.ReportsEveryRead` | src/Apollo3zehn.OpenApiClientGenerator/Templates/CSharpTemplate.cs:509-516 | with the stopwatch restarted, a download that passes the threshold at every read, and whose length is not reached, is reported at every read |
| `Export.AsWrittenReportsAtMostOnce` | src/Apollo3zehn.OpenApiClientGenerator/Templates/CSharpTemplate.cs:509-516 | with `Reset`, the copy loop makes at most one progress report, however many reads it takes |
| `Export.ThreeReads` | src/Apollo3zehn.OpenApiClientGenerator/Templates/CSharpTemplate.cs:504 | three one-byte chunks are three one-byte reads |
| `Export.StopwatchResetCounterexample` | src/Apollo3zehn.OpenApiClientGenerator/Templates/CSharpTemplate.cs:499-516 | a 3-byte artifact with a Content-Length of 3, read one byte at a time: as written one report; restarted 1/3 and 2/3 |
| `Export.CopyAdvance` | src/Apollo3zehn.OpenApiClientGenerator/Templates/CSharpTemplate.cs:504-518 | one read carries the copy loop's invariant over: written plus remaining bytes, and reported plus remaining reports, stay the totals |
| `Export.SizesStep` | src/Apollo3zehn.OpenApiClientGenerator/Templates/CSharpTemplate.cs:504 | the first read of a non-empty stream is the first of its read sizes |
| `Export.ReportsStep` | src/Apollo3zehn.OpenApiClientGenerator/Templates/CSharpTemplate.cs:507-518 | the reports of a run of reads are the first read's report followed by those of the rest |
| `Export.DownloadStagesInOrder` | src/Apollo3zehn.OpenApiClientGenerator/Templates/CSharpTemplate.cs:497-526 | the download and extraction reports follow the export reports, in stage order |
| `Export.ExportStagesInOrder` | src/Apollo3zehn.OpenApiClientGenerator/Templates/CSharpTemplate.cs:415-539 | whatever happens, reports never go back to an earlier stage (export, download, extract) |
| `Export.ClosingReports` | src/Apollo3zehn.OpenApiClientGenerator/Templates/CSharpTemplate.cs:522-526 | the single "export" report at 1 stays single; the last two reports are the completed download and extraction |
| `Export.ExportSpec` | src/Apollo3zehn.OpenApiClientGenerator/Templates/CSharpTemplate.cs:415-539 | no reports without a callback; a submission failure exactly when submission threw; a temporary file only when the call ended done or with the extraction failure |
| `Export.DownloadCompletes` | src/Apollo3zehn.OpenApiClientGenerator/Templates/CSharpTemplate.cs:479-538 | after a successful extraction: done, the temporary file holds the artifact's bytes, and the closing reports come last |
| `Export.DoneAfterDownload` | src/Apollo3zehn.OpenApiClientGenerator/Templates/CSharpTemplate.cs:470-526 | with a file format, `Done` only after a successful submission, a finished job, a successful download and extraction |
| `Export.ExportCompletes` | src/Apollo3zehn.OpenApiClientGenerator/Templates/CSharpTemplate.cs:415-539 | a completed export downloaded the job's artifact into the temporary file. "export" reaches 1 exactly once, and the closing reports come last. The file remains exactly when deletion failed |
| `Export.NothingDownloadedUnlessAsked` | src/Apollo3zehn.OpenApiClientGenerator/Templates/CSharpTemplate.cs:444-479 | something is downloaded exactly when the submission worked, the job finished and a file format was asked for; a faulted job reports its message; a failing status query ends the call with its error; a temporary file remains only when deletion failed |
| `Export.WaitForJob` | src/Apollo3zehn.OpenApiClientGenerator/Templates/CSharpTemplate.cs:444-468 | the wait ends as the poll specification says (including a failing status query), with its reports when there is a callback |
| `Export.CopyToFile` | src/Apollo3zehn.OpenApiClientGenerator/Templates/CSharpTemplate.cs:495-520 | the temporary file receives exactly the stream's bytes; the reports are those of the copy specification |
| `Export.Export` | src/Apollo3zehn.OpenApiClientGenerator/Templates/CSharpTemplate.cs:415-539 | outcome, reports, download, temporary file and its deletion are those of the export specification |
| `Schemas.TypedIffSupported` | src/Apollo3zehn.OpenApiClientGenerator/Generators/CSharpGenerator.cs:669-708 | typing succeeds exactly on the supported schemas, a definition independent of the type mapping |
| `Schemas.GetType` | src/Apollo3zehn.OpenApiClientGenerator/Generators/CSharpGenerator.cs:669-708 | a referenced schema is always typed; the type of a nullable schema ends with "?" |
| `Schemas.NullableAppendsOneMark` | src/Apollo3zehn.OpenApiClientGenerator/Generators/CSharpGenerator.cs:705-707 | nullability never decides success and appends exactly one "?" |
| `Schemas.ReferenceWins` | src/Apollo3zehn.OpenApiClientGenerator/Generators/CSharpGenerator.cs:673-703 | a referenced schema's type is the reference id, whatever its other keywords |
| `Schemas.ContainerTypes` | src/Apollo3zehn.OpenApiClientGenerator/Generators/CSharpGenerator.cs:693-695 | arrays are read-only lists of the item type; objects with `additionalProperties` are read-only dictionaries from string |
| `Schemas.TypeErrors` | src/Apollo3zehn.OpenApiClientGenerator/Generators/CSharpGenerator.cs:677-696 | more than one `oneOf` entry, and an unknown type, fail with their messages |
| `Schemas.MediaType` | src/Apollo3zehn.OpenApiClientGenerator/Generators/CSharpGenerator.cs:657-667 | only JSON and octet-stream succeed; JSON is the schema's type; anything else fails with the media-type message |
| `Schemas.MediaDirection` | src/Apollo3zehn.OpenApiClientGenerator/Generators/CSharpGenerator.cs:659-664 | a binary stream is a response message when returned and a stream when passed in; other types do not depend on direction |
| `Schemas.ApplyRequired` | src/Apollo3zehn.OpenApiClientGenerator/Generators/CSharpGenerator.cs:649-655 | the type or the type plus "?"; unchanged when required; ends with "?" exactly when it already did or the value is optional |
| `Schemas.ApplyRequiredIdempotent` | src/Apollo3zehn.OpenApiClientGenerator/Generators/CSharpGenerator.cs:649-655 | applying it twice is applying it once |
| `Schemas.ParameterToStringCode` | src/Apollo3zehn.OpenApiClientGenerator/Generators/CSharpGenerator.cs:624-634 | succeeds exactly when the type does; a string is passed as it is; any other code contains the parameter name |
| `Schemas.ToStringCodeCases` | src/Apollo3zehn.OpenApiClientGenerator/Generators/CSharpGenerator.cs:628-633 | dates use the round-trip format; other non-strings go through the invariant culture |
| `Signatures.KeptExactly` | src/Apollo3zehn.OpenApiClientGenerator/Generators/CSharpGenerator.cs:775-776 | the kept parameters are exactly the path and query parameters |
| `Signatures.ParameterText` | src/Apollo3zehn.OpenApiClientGenerator/Generators/CSharpGenerator.cs:777 | succeeds exactly when the type does. A required parameter is "type name". An optional one starts with its nullable-adjusted type (`ApplyRequired` of the type, so "int?" for "int") and a space, and ends with " name = default" |
| `Signatures.Declarations` | src/Apollo3zehn.OpenApiClientGenerator/Generators/CSharpGenerator.cs:775-777 | on success, one declaration per kept parameter, in order; on failure, the error of the first parameter whose type fails |
| `Signatures.BodyParameter` | src/Apollo3zehn.OpenApiClientGenerator/Generators/CSharpGenerator.cs:779-811 | the content-count and media errors; without `x-name` the body is "JsonElement body" or "JsonElement? body"; a non-string `x-name` fails with its error; a string `x-name` declares the media type of the content (named after the method plus "Request"), adjusted for `required`, followed by the `x-name` text, and the media type's error fails the body |
| `Signatures.FirstsAreFirst` | src/Apollo3zehn.OpenApiClientGenerator/Generators/CSharpGenerator.cs:816 | the required group holds only required entries, the other group none |
| `Signatures.InsertBehindFirsts` | src/Apollo3zehn.OpenApiClientGenerator/Generators/CSharpGenerator.cs:816 | an optional entry goes behind every required one |
| `Signatures.OrderIsStablePartition` | src/Apollo3zehn.OpenApiClientGenerator/Generators/CSharpGenerator.cs:816 | `OrderByDescending` gives the required entries in their order, then the others in theirs |
| `Signatures.PartitionPermutes` | src/Apollo3zehn.OpenApiClientGenerator/Generators/CSharpGenerator.cs:816 | splitting into the two groups loses and adds nothing |
| `Signatures.OrderedRequiredFirst` | src/Apollo3zehn.OpenApiClientGenerator/Generators/CSharpGenerator.cs:813-822 | the ordered list is a permutation; no required entry follows an optional one; each group keeps its order |
| `Signatures.FiltersOfSorted` | src/Apollo3zehn.OpenApiClientGenerator/Generators/CSharpGenerator.cs:816 | splitting a list that is already required-first gives back its two parts |
| `Signatures.BodyBetween` | src/Apollo3zehn.OpenApiClientGenerator/Generators/CSharpGenerator.cs:819-822 | the body parameter comes after the required parameters and before the optional ones |
| `Signatures.AcceptedOperations` | src/Apollo3zehn.OpenApiClientGenerator/Generators/CSharpGenerator.cs:735-745 | only get, put, post and delete with a "200" or "201" response; the operation check comes first |
| `Signatures.GetMethodSignature` | src/Apollo3zehn.OpenApiClientGenerator/Generators/CSharpGenerator.cs:723-828 | a successful signature declares one parameter per path or query parameter, and has a body parameter exactly when the operation has a request body; once the operation and the response key are accepted, the return type is the response media type's type under the anonymous name "<method>Response" (or "" without a response type), and a failing response type fails the signature with its error |
| `Signatures.BodyErrorBeforeParameters` | src/Apollo3zehn.OpenApiClientGenerator/Generators/CSharpGenerator.cs:779-812 | an unsupported request body fails the signature with its own error, before any parameter type is derived |
| `Signatures.NoParameters` | src/Apollo3zehn.OpenApiClientGenerator/Generators/CSharpGenerator.cs:763-768 | without parameters and body the signature is `name()` or `nameAsync(CancellationToken cancellationToken = default)` |
| `Signatures.AsyncMatchesSync` | src/Apollo3zehn.OpenApiClientGenerator/Generators/CSharpGenerator.cs:813-826 | the two variants succeed or fail alike, with the same return type, parameters and body. The async parameter list is the sync one plus the cancellation token, with no separator when the sync list is empty |
| `Signatures.SignatureParameters` | src/Apollo3zehn.OpenApiClientGenerator/Generators/CSharpGenerator.cs:775-826 | the path and query parameters, in their order, and a text listing a required-first permutation of them and the body |
| `Signatures.SignatureParts` | src/Apollo3zehn.OpenApiClientGenerator/Generators/CSharpGenerator.cs:775-826 | a successful signature holds the declarations and lists them in the text |
| `Signatures.ParameterErrors` | src/Apollo3zehn.OpenApiClientGenerator/Generators/CSharpGenerator.cs:775-777 | header and cookie parameters cannot make the signature fail; it succeeds exactly when every path and query parameter can be typed |
| `Signatures.LeadingCommaCounterexample` | src/Apollo3zehn.OpenApiClientGenerator/Generators/CSharpGenerator.cs:824-826 | a header-only operation: as written `GetInfoAsync(, CancellationToken …)`, corrected `GetInfoAsync(CancellationToken …)` |
| `Signatures.ReturnTypeWrapping` | src/Apollo3zehn.OpenApiClientGenerator/Generators/CSharpGenerator.cs:422-424 | `void`/`Task` without a return type; otherwise the type and `Task<type>` |
| `Signatures.PreparedReturnType` | src/Apollo3zehn.OpenApiClientGenerator/Generators/CSharpGenerator.cs:422-424 | the asynchronous type always starts with "Task"; a non-blank synchronous type is the return type itself |
| `Signatures.ResponseMethods` | src/Apollo3zehn.OpenApiClientGenerator/Generators/CSharpGenerator.cs:241-274 | a response without content gives one method without a response type |
| `Signatures.MethodsFor` | src/Apollo3zehn.OpenApiClientGenerator/Generators/CSharpGenerator.cs:270-274 | one method per media type, in order, each with its suffix |
| `Signatures.SuffixesDistinct` | src/Apollo3zehn.OpenApiClientGenerator/Generators/CSharpGenerator.cs:15-19 | distinct media types of one response give distinct suffixes |
| `Signatures.MethodSuffix` | src/Apollo3zehn.OpenApiClientGenerator/Generators/CSharpGenerator.cs:15-19 | a suffix exists exactly for a single content or a JSON or octet-stream key; with several contents it is never empty |
| `Signatures.GetFirstLine` | src/Apollo3zehn.OpenApiClientGenerator/Generators/CSharpGenerator.cs:830-837 | nothing for nothing; otherwise a line-break-free prefix of the text |
| `Signatures.FirstLineOfOneLine` | src/Apollo3zehn.OpenApiClientGenerator/Generators/CSharpGenerator.cs:830-837 | a text without line breaks is its own first line |
| `Signatures.FirstLineStopsAtBreak` | src/Apollo3zehn.OpenApiClientGenerator/Generators/CSharpGenerator.cs:830-837 | the first line stops right before the first break |
| `Emission.VersionIdentifier` | src/Apollo3zehn.OpenApiClientGenerator/Generators/CSharpGenerator.cs:50-60 | none exactly for a blank version; otherwise non-empty, upper-case first, no dots |
| `Emission.IdentifierKeepsVersion` | src/Apollo3zehn.OpenApiClientGenerator/Generators/CSharpGenerator.cs:50-60 | the identifier is the version with its first letter upper-cased and dots as underscores; a version not starting with a letter gets a leading "V", followed by its first character unchanged (a dot as an underscore) |
| `Emission.IdentifiersValid` | src/Apollo3zehn.OpenApiClientGenerator/Generators/CSharpGenerator.cs:47-60 | one valid identifier per non-blank version |
| `Emission.VersionIdentifiers` | src/Apollo3zehn.OpenApiClientGenerator/Generators/CSharpGenerator.cs:47-60 | the loop derives the identifiers of the specification |
| `Emission.SentUnlessNull` | src/Apollo3zehn.OpenApiClientGenerator/Generators/CSharpGenerator.cs:513-522 | required non-nullable query values are always sent, the others only when not null; the guard line is written exactly for the latter |
| `Emission.QueryParameters` | src/Apollo3zehn.OpenApiClientGenerator/Generators/CSharpGenerator.cs:497-499 | the parameters kept are the query parameters: every one kept is located in the query, and every declaration located in the query has its parameter kept |
| `Emission.QueryParametersFrom` | src/Apollo3zehn.OpenApiClientGenerator/Generators/CSharpGenerator.cs:497-499 | every parameter kept is the parameter of one of the declarations |
| `Emission.QueryParametersAppend` | src/Apollo3zehn.OpenApiClientGenerator/Generators/CSharpGenerator.cs:497-499 | keeping the query parameters of two runs of declarations is keeping those of each run, one after the other: order is preserved |
| `Emission.Statements` | src/Apollo3zehn.OpenApiClientGenerator/Generators/CSharpGenerator.cs:507-525 | one statement per query parameter |
| `Emission.StatementsAt` | src/Apollo3zehn.OpenApiClientGenerator/Generators/CSharpGenerator.cs:507-525 | statement i is the statement of query parameter i, with its own to-string code |
| `Emission.StatementOf` | src/Apollo3zehn.OpenApiClientGenerator/Generators/CSharpGenerator.cs:507-525 | the same, for one index |
| `Emission.LinesPrefix` | src/Apollo3zehn.OpenApiClientGenerator/Generators/CSharpGenerator.cs:507-525 | the lines of the first k statements are a prefix of all lines |
| `Emission.StatementInPlace` | src/Apollo3zehn.OpenApiClientGenerator/Generators/CSharpGenerator.cs:507-525 | the i-th statement's lines appear whole, right after those of the statements before it |
| `Emission.RequiredAlwaysSent` | src/Apollo3zehn.OpenApiClientGenerator/Generators/CSharpGenerator.cs:507-527 | every required non-nullable query parameter is sent under its own name |
| `Emission.AppendQuery` | src/Apollo3zehn.OpenApiClientGenerator/Generators/CSharpGenerator.cs:496-529 | the lines written are the query block of the specification, with each parameter's own name as the key (the corrected name; see "## Left out") |
| `Emission.WrittenUnderGuard` | src/Apollo3zehn.OpenApiClientGenerator/Generators/CSharpGenerator.cs:507-525 | in the emitted block, parameter i's first line is its null check exactly when it is optional or nullable, and its assignment follows the check or stands alone |
| `Emission.StatementShape` | src/Apollo3zehn.OpenApiClientGenerator/Generators/CSharpGenerator.cs:513-522 | a statement starts with the null check exactly for an optional or nullable parameter, followed by the indented assignment; otherwise it starts with the assignment |
| `Emission.StatementWritten` | src/Apollo3zehn.OpenApiClientGenerator/Generators/CSharpGenerator.cs:507-525 | right after the header and the lines of the statements before it, statement i's null check (exactly when guarded) and assignment are written |
| `Emission.JoinEntries` | src/Apollo3zehn.OpenApiClientGenerator/Generators/CSharpGenerator.cs:527 | the "key=value" entries joined with '&' are empty exactly when there are no entries, and end with the last entry |
| `Emission.QueryString` | src/Apollo3zehn.OpenApiClientGenerator/Generators/CSharpGenerator.cs:527 | the run-time query string starts with "?" and is a bare "?" exactly when no entry was set |
| `Emission.SentEmpty` | src/Apollo3zehn.OpenApiClientGenerator/Generators/CSharpGenerator.cs:507-527 | statements send nothing exactly when none of them sends anything |
| `Emission.NothingSent` | src/Apollo3zehn.OpenApiClientGenerator/Generators/CSharpGenerator.cs:507-527 | nothing is sent exactly when every query parameter is optional or nullable and was passed as null |
| `Emission.BareQuery` | src/Apollo3zehn.OpenApiClientGenerator/Generators/CSharpGenerator.cs:527 | the query string is a bare "?" exactly when every query parameter is optional or nullable and null |
| `Emission.StatementsStep` | src/Apollo3zehn.OpenApiClientGenerator/Generators/CSharpGenerator.cs:507-525 | one more parameter adds its statement's lines |
| `Emission.SecondPiece` | src/Apollo3zehn.OpenApiClientGenerator/Generators/CSharpGenerator.cs:509 | the second space-separated piece of "type name" or "type name = default" is the name, when neither has a space |
| `Emission.NameAsWrittenPlainType` | src/Apollo3zehn.OpenApiClientGenerator/Generators/CSharpGenerator.cs:509 | for a type without spaces, the second piece is the parameter's name |
| `Emission.DictionaryDeclaration` | src/Apollo3zehn.OpenApiClientGenerator/Generators/CSharpGenerator.cs:777 | a required dictionary parameter is declared `IReadOnlyDictionary<string, int> filter` |
| `Emission.DictionaryNameCounterexample` | src/Apollo3zehn.OpenApiClientGenerator/Generators/CSharpGenerator.cs:509-516 | as written the name is read as "int>"; the corrected statement uses "filter" |

## Left out

- **I/O and the outside world.** Files, HTTP, the clock, the SHA-256 digest, JSON and base64 encoding, and the operation-name callback are parameters of the model. The token file path is built from a digest function that is given.
- **Concurrency.** The semaphore around the refresh is modelled as one refresh after another (`ApiClient.RefreshSingleFlight`). Interleavings, cancellation tokens and `Task.Delay` are left out; a cancellation during the wait is one kind of poll.
- **Numbers.** Doubles are kept as their eight bytes (`Frames.Sample`), and progress values are reals rather than IEEE doubles.
- Loader.ProgressAt: report i is exactly (i+1)/n only for reals. The source adds 1.0/n to a double, so its reports drift from these values.
- Loader.ProgressShape: the bound 1 and the last report being exactly 1 hold for reals only. With doubles, 9 items end just above 1 (1.0000000000000002) and 10 items just below (0.9999999999999999). The strict increase also holds for the doubles.
- Loader.ProgressLast: the last report is exactly 1 for reals only (see Loader.ProgressShape).
- Loader.ProgressBounded: the bound 1 holds for reals only (see Loader.ProgressShape).
- Loader.ProgressStep: i/n + 1/n = (i+1)/n holds for reals, not for the rounded double sum.
- Export.CopyToFile: it follows the corrected stopwatch (`Restart`, `Export.SizeReports`). As written, `Reset` stops the watch, so the code makes the reports of `Export.SizeReportsAsWritten` (first Findings row).
- Export.Export: its download reports are those of the corrected stopwatch, as for Export.CopyToFile. The code as written reports at most once during the download.
- Signatures.GetMethodSignature: it builds the text with the corrected `Signatures.SignatureText`. The code as written is `Signatures.SignatureTextAsWritten`, which puts ", " before the cancellation token even after an empty list (second Findings row).
- Signatures.SignatureParameters: the text it describes is the corrected one of Signatures.GetMethodSignature.
- Signatures.SignatureParts: the text it describes is the corrected one of Signatures.GetMethodSignature.
- Export.CopyToFile: it does not model the 32-bit `consumed` counter. Bytes are counted in unbounded integers, so a download over 2 GiB, where the counter wraps in the source, is not modelled.
- Export.CopyToFile: it does not model the unit of `ElapsedTicks` against `TimeSpan` ticks. The threshold is abstracted into `elapsed(k)`.
- **The unreachable artifact check.** "The job result is invalid" cannot happen once the loop ends with a string result, so it has no outcome of its own. An unfinished wait is `Pending`.
- **Job submission.** It is modelled only by its failure (`submitError`).
- **Unreleased responses.** A failing response is not disposed when the exception is thrown; the model records this in `disposed` and nothing more.
- Text.ToUpper, Text.FirstCharToUpper and Emission.VersionIdentifier: they follow `char.IsLetter`, `char.IsUpper` and the upper-casing of `Shared.FirstCharToUpper` only on ASCII. White space (`Text.IsWhiteSpace`) follows the full `char.IsWhiteSpace` set. `Shared.FirstCharToUpper` is not part of this model; it is taken to upper-case the first character.
- Emission.AppendQuery: it writes each query parameter's own name as the key and the variable (the corrected half of the third Findings row). As written, the name is `Emission.NameAsWritten` of the declaration, the second space-separated piece. It equals the parameter's name when the type has no space (`Emission.NameAsWrittenPlainType`), and differs when the type contains one, as for a dictionary (`Emission.DictionaryNameCounterexample`). The same applies to `Emission.WrittenUnderGuard`, `Emission.RequiredAlwaysSent` and `Emission.BareQuery`, which describe the corrected lines. The path-parameter `Replace` lines (line 491 of `CSharpGenerator.cs`) have the same defect and are not modelled.
- Schemas.TypedIffSupported: a named inline object (an `object` without `additionalProperties`) counts as typed whatever it holds. In the source, `GetAnonymousType` also generates the model's code, and that fails on a property whose type cannot be derived or on an enum that is not of type string. The schema model has no properties or enums, so those failures are not modelled. The stated success holds only up to them, and the same goes for every member that relies on `Schemas.GetType` succeeding.
- **Anonymous models.** `GetAnonymousType`'s side effect is left out: it registers a model's source text in `_additionalModels`. Only the returned type name is modelled. `AppendModelSourceText` and `GetProperties` are not part of this model.
- **Generated text around the signature.** Doc comments, path-parameter `Replace` lines, and the file and template output of `Generate` are left out. The Python templates are not part of this model.
- **Query values at run time.** `Emission.Sent` lists key/value pairs in the order they are set, and `Emission.QueryString` joins them in that order; this is the order in which a `Dictionary` without removals enumerates its entries. It does not model the dictionary overwriting a repeated key.
- **Arrays without `items`.** They fail with the null-reference message, standing for the exception `GetType(schema.Items)` would raise.
- **Missing schemas.** The model's parameters and media types always carry a schema. In the source, a parameter declared with `content` instead of `schema`, or a JSON request or response media type without a schema, reaches `GetType(null)` and fails with a null-reference exception. That input and its failure are not modelled.
- **Lazy declarations.** The parameter declarations are built lazily, when the list is joined, so a body error is reported before a parameter type error. The model keeps that order.

## Findings

| source | as written | input that shows it | evidently intended | confidence | as-written member | corrected member |
|---|---|---|---|---|---|---|
| src/Apollo3zehn.OpenApiClientGenerator/Templates/CSharpTemplate.cs:509-511 | `sw.Reset()` stops the stopwatch as well as zeroing it, so once the threshold has been passed `ElapsedTicks` stays 0 and no later read reports | a 3-byte artifact with a Content-Length of 3, read as three one-byte chunks, the threshold passed at every read: one report instead of 1/3 and 2/3 | `sw.Restart()`: report at most once per interval throughout the download | not executed | `Export.AsWrittenReportsAtMostOnce` | `Export.ReportsEveryRead` |
| src/Apollo3zehn.OpenApiClientGenerator/Generators/CSharpGenerator.cs:824-826 | the asynchronous signature always writes ", " before the cancellation token, even when every parameter was filtered out (header or cookie only) | an operation "GetInfo" whose only parameter is a header parameter and that has no body gives `GetInfoAsync(, CancellationToken cancellationToken = default)` | no separator when the parameter list is empty | not executed | `Signatures.LeadingCommaCounterexample` | `Signatures.AsyncMatchesSync` |
| src/Apollo3zehn.OpenApiClientGenerator/Generators/CSharpGenerator.cs:509 | the parameter name is taken as the second space-separated piece of the declaration, which is wrong when the type itself contains a space | a required query parameter `filter` of type `IReadOnlyDictionary<string, int>`: the name is read as "int>" | use the parameter's own name | not executed | `Emission.DictionaryNameCounterexample` | `Emission.AppendQuery` |
