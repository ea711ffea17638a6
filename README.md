# A verified model of a small HTTP/1.1 redirect-following client

`client.c` is a command-line HTTP/1.1 client:

    client [-r n name1=value1 ... nameN=valueN] http://host[:port]/path

It parses its arguments and splits the URL into host, port and path. It
builds a `GET` request whose query string is the `name=value` parameters,
sends it over TCP and reads the response until the server closes the
connection. A `3xx` response with an `http://` Location is followed. The
counter check starts a new request only while the follow count is at most
10, so the client makes at most 11 requests.

The Dafny modules follow the C functions:

| module | file | models |
|---|---|---|
| `Wrappers` | wrappers.dfy | `Option` and `Result` |
| `LibC` | libc.dfy | the C library calls the client uses: strtol, strncpy-style truncation, strchr, strstr, strncasecmp's lower-casing, reading a buffer as a NUL-terminated string |
| `Numbers` | numbers.dfy | `isPositiveNumberUnder16Bit` |
| `Args` | args.dfy | `parseArguments` |
| `Url` | url.dfy | `parseURL`, `isHTTP` |
| `Request` | request.dfy | `buildHTTPRequest` |
| `Inspect` | inspect.dfy | `extractStatusCode`, `extractLocationHeader` |
| `Transport` | transport.dfy | `sendAll`, `receiveResponse` |
| `Redirect` | redirect.dfy | the redirect loop of `main` |

Each C function that works step by step becomes a `method` with the C
function's own loops. Most of these methods are proved equal to a
specification `function`, and lemmas prove the C function's promises about
that function. The exceptions state their results directly in their
`ensures`:

- `Transport.SendAll` states its verdict, its number of send() calls and
  the bytes sent;
- `Transport.Realloc`, `Transport.CopyAt`, `Transport.MakeRoom` and
  `Transport.Collect` state the new buffer contents and capacity.

Error exits become `Err` values:

- `printUsageAndExit` gives a `UsageError`;
- `parseURL` gives a `UrlError`;
- `main` gives a `Failure`.

The network is an input. A `Server` is a function from the connection
number and the request issued on it to what happened:

- connect failed;
- send failed;
- recv failed;
- the bytes received.

The C string buffers are modelled as follows:

- A fixed-size buffer becomes a string whose length is bounded where the C
  code bounds it:
  - `path[1024]`, `finalPath[1200]` and `currentURL[1024]` by a `Truncate`,
    as `strncpy` and `strncat` cut them;
  - `host[256]` by the length test that refuses longer hosts;
  - `portBuf[10]` by the 9-character port walk (`Url.PortEnd`);
  - `locationURL[1024]` by the 1023-character copy loop (`Inspect.LineEnd`).
- A C string is the characters before its terminator.
- The received buffer may contain NUL bytes, so the status and Location
  scans run on `CString(bytes)`. `CString` is the string up to the first
  NUL, which is what `strstr` and the `*p` loops see.

Where the code and its own comments or usage text disagree, the model
follows the code:

- **Several `-r` blocks are accepted.** The header comment of
  `parseArguments` says exactly one. The code accepts any number, and the
  last block's parameters win (`Args.LaterBlockWins`).
- **The port walk stops after 9 characters.** It does not stop at the end
  of the port. A port written with 9 digits followed by anything other
  than `/` is read from those 9 digits. The rest of the URL is then
  dropped, and the path stays `/` (`Url.PortWindowDropsRest`).
- **The command-line URL is cut to 1023 characters.** `main` copies it
  into `currentURL[1024]` with `strncpy`, so a longer URL is used without
  its tail (`Redirect.Run`).
- **`isPositiveNumberUnder16Bit` accepts `strtol`'s lenient forms.** These
  are leading white space and a `+` sign, as in `" +7"`
  (`Numbers.SignedWithSpaceAccepted`).
- **`extractStatusCode` does not stick to the first line, and does not
  always return -1 when no code is found.** Its header comment says it
  reads the code from the first line and returns -1 if there is none.
  The code differs in three ways:
  - `strstr` scans the whole response, so an `HTTP/` on a later line or in
    the body is used, as in `ok\r\nHTTP/1.0 204` (`Inspect.MarkOnLaterLineExample`).
  - A response that ends right after the spaces leaves an empty window.
    strtol reads an empty string whole, so the status is 0, not -1
    (`Inspect.EmptyWindowGivesZero`).
  - strtol's lenient forms are read: `+20` gives 20, `-5` gives -5, and a
    tab before the digits is skipped (`Inspect.PlusSignCodeExample`,
    `Inspect.MinusSignCodeExample`, `Inspect.TabBeforeCodeExample`).

  None of this changes which responses are followed. A status of 100 or
  more was always read from exactly three digits
  (`Inspect.HighCodeHasThreeDigits`).

## Model

| member | source | states |
|---|---|---|
| `LibC.CString` | client.c:128-131 | the string the scans see is a NUL-free prefix of the buffer, cut exactly at the first NUL |
| `LibC.CStringOfNulFree` | client.c:128-131 | a buffer without NUL is read whole |
| `LibC.Truncate` | client.c:71-72 | strncpy into an n+1 buffer keeps a prefix of length min(len, n) |
| `LibC.TruncateAppend` | client.c:349-361 | truncating a concatenation is truncating the first part, then the second to the room left |
| `LibC.TruncateTwice` | client.c:356-361 | a second truncation after appending loses nothing over truncating once |
| `LibC.ToLower` | client.c:536 | each capital A-Z maps to its own lower-case letter (code + 32), everything else is unchanged |
| `LibC.Strtol` | client.c:179 | without digits after the blanks and sign the end is 0 and the value 0; otherwise the end is just past the digit run, and the value is that run's decimal, negated exactly after a `-` |
| `LibC.NumberStart` | client.c:179 | the digits start after the leading whitespace and at most one `+` or `-` |
| `LibC.StrtolDigits` | client.c:319-321 | on a digit string strtol reads it all and yields its decimal value |
| `LibC.DecimalBound` | client.c:506-513 | a numeral of d digits is below 10^d |
| `LibC.IndexOf` | client.c:497 | strchr: the first position at or after `from` holding the character, or none |
| `LibC.Find` | client.c:493 | strstr: the first position at or after `from` where the needle occurs, or none |
| `LibC.StartsWith` | client.c:277 | strncmp against a prefix: the string is at least as long as the prefix and begins with it |
| `LibC.MatchesIgnoringCase` | client.c:536 | strncasecmp at a position: the needle fits there and each character lower-cases to the needle's |
| `Numbers.IsPositiveNumberUnder16Bit` | client.c:173-185 | a non-empty string that strtol reads to its end with a value in 1..65535 (its properties are the lemmas below) |
| `Numbers.NumeralAccepted` | client.c:173-185 | a digit string is accepted iff its value is in 1..65535 |
| `Numbers.AcceptedShape` | client.c:173-185 | an accepted string is white space, an optional `+`, and digits worth 1..65535 |
| `Numbers.SignedWithSpaceAccepted` | client.c:179-181 | `" +7"` is accepted (strtol skips blanks and a sign) |
| `Numbers.NegativeRefused` | client.c:181 | `"-5"` is refused (value not positive) |
| `Numbers.TrailingTextRefused` | client.c:181 | `"12a"` is refused (endptr not at the end) |
| `Numbers.UpperBoundary` | client.c:181 | 65535 is accepted and 65536 refused |
| `Args.Walk` | client.c:202-260 | the argument walk branch for branch: unknown flag, missing or invalid count, too few or malformed parameters, a second URL, no URL (its properties are the lemmas below) |
| `Args.ParseArgs` | client.c:196-261 | parseArguments is the walk from argv[1] with no URL and no parameters |
| `Args.TakeParams` | client.c:229-241 | the n tokens are taken iff there are n of them and each contains `=`; they are taken in order |
| `Args.CopyParams` | client.c:229-242 | the inner copy loop takes exactly the block TakeParams describes, or fails the same way |
| `Args.ParseArguments` | client.c:196-261 | the argument loop yields exactly the walk's result, including every usage error |
| `Args.WalkSound` | client.c:202-254 | a successful walk yields a non-flag URL token of argv and either the earlier parameters or a `-r` block of argv: `-r`, a count whose value is the number of parameters, then the parameters |
| `Args.BlockSound` | client.c:204-243 | the `-r` step keeps that soundness: the block it takes stands right after `-r` and the count |
| `Args.BlockAtStart` | client.c:215-242 | the parameters a leading `-r n` takes form a block standing right after `-r` and the count |
| `Args.StrayParameterNotABlock` | client.c:244-250 | a `name=value` token after a URL, with no `-r` and count before it, is not a parameter block |
| `Args.UrlSound` | client.c:244-253 | taking the URL token keeps that soundness |
| `Args.ParsedArgsWellFormed` | client.c:196-261 | on success argv holds the URL (not a flag), the parameters are empty or a consecutive block of 1..65535 `name=value` tokens of argv standing right after `-r` and a count equal to their number, and argv[1..] cuts into URL tokens and well-formed `-r` blocks with exactly one URL token, the parameters being the last block's |
| `Args.WalkSegments` | client.c:202-254 | a successful walk cuts its tokens into well-formed segments whose URL tokens are the URL taken and whose last block gives the parameters |
| `Args.BlockStep` | client.c:204-243 | the `-r` step puts one well-formed block in front of the segments of the rest |
| `Args.UrlStep` | client.c:244-253 | the URL step puts one URL token in front of the segments of the rest |
| `Args.BlockTokens` | client.c:215-242 | a `-r` step takes exactly n `name=value` tokens, standing right after `-r` and the count |
| `Args.ConsSegment` | client.c:202-254 | a well-formed segment in front of a segmentation cuts its tokens followed by the rest |
| `Args.FirstTokenOfSegments` | client.c:204-209 | a segmented argv starts with a non-flag token or `-r` |
| `Args.WalkFlatten` | client.c:202-260 | walking well-formed segments with one URL token yields that URL and the last block's parameters |
| `Args.SegmentsParsed` | client.c:196-261 | conversely, every argv made of well-formed segments with exactly one URL token is accepted, with the last block's parameters |
| `Args.UnknownFlagNoSegments` | client.c:204-209 | a flag other than `-r` admits no segmentation and is refused as an unknown flag |
| `Args.TakeWholeBlock` | client.c:229-241 | a block of `name=value` tokens is taken whole, whatever follows |
| `Args.BlockWalked` | client.c:204-243 | `-r count p1..pn` is consumed whole and replaces the parameters |
| `Args.UrlWalked` | client.c:244-253 | a non-flag token becomes the URL |
| `Args.ParamsThenUrlAccepted` | client.c:202-254 | `-r n params URL` parses to that URL and those parameters |
| `Args.UrlThenParamsAccepted` | client.c:202-254 | `URL -r n params` parses the same |
| `Args.UrlOnlyAccepted` | client.c:244-260 | a lone URL parses with no parameters |
| `Args.TwoUrlsRefused` | client.c:246-250 | a second URL token is a usage error |
| `Args.LaterBlockWins` | client.c:224-242 | with two `-r` blocks the second one's parameters are kept |
| `Url.HostEnd` | client.c:285-288 | the host ends at the first `:` or `/`, or at the end |
| `Url.PortEnd` | client.c:306 | the port walk ends at `/`, the end, or after 9 characters |
| `Url.PortClause` | client.c:301-322 | a port that is read lies in 1..65535 |
| `Url.ParsedUrlOf` | client.c:272-329 | a parsed URL has a host of 1..255 characters with no `:` or `/`, a port in 1..65535 and a path of at most 1023 characters starting with `/` |
| `Url.ParseURL` | client.c:272-329 | the scheme test, host loop and length test give exactly ParsedUrlOf's result |
| `Url.PortAndPath` | client.c:297-328 | the port and path after the host are exactly what ParsedUrlOf derives |
| `Url.ReadPort` | client.c:301-322 | the port loop and its two checks give exactly PortClause |
| `Url.CopyPort` | client.c:302-314 | the copy loop succeeds iff the 9-character window is all digits, and then copies that window |
| `Url.NonDigitInClause` | client.c:306-310 | a non-digit inside the window makes the port invalid |
| `Url.IsHttp` | client.c:560-564 | isHTTP: the string starts with `http://` |
| `Url.IsHttpIffSchemeAccepted` | client.c:560-564 | isHTTP holds iff parseURL gets past its scheme test |
| `Url.ComposedUrlParsed` | client.c:272-329 | `http://host` followed by `/path` or nothing parses to that host, port 80 and the path (or `/`), the path truncated to 1023 |
| `Url.PortUrlAt` | client.c:301-322 | a digit port after `:` parses to its decimal value with the path after it |
| `Url.ComposedUrlWithPortParsed` | client.c:301-328 | `http://host:digits/path` parses to that host, port and path |
| `Url.PortWindowDropsRest` | client.c:306-326 | after 9 port digits a non-`/` rest is ignored and the path stays `/` |
| `Url.LongHostRefused` | client.c:289-293 | a host of 256 or more characters is refused |
| `Url.OtherSchemeRefused` | client.c:277-280 | a URL not starting with `http://` is refused |
| `Url.EmptyHostRefused` | client.c:289-293 | every empty host is refused: `http://` followed by nothing, a `:` or a `/` |
| `Url.LargePortRefused` | client.c:315-318 | port 99999 is out of range |
| `Url.NonDigitPortRefused` | client.c:307-310 | the port `abc` in `http://host:abc/` is refused |
| `Url.NonDigitInPortRefused` | client.c:301-310 | for every URL with a valid host and a `:`, a non-digit inside the 9-character port window refuses the URL |
| `Url.PortOutOfRangeRefused` | client.c:301-318 | for every URL with a valid host and a `:`, an all-digit port window that is empty or worth 0 or more than 65535 refuses the URL |
| `Url.AfterHost` | client.c:297-328 | after the host: with a `:` the port clause decides the port or the complaint, and the path is read where the port walk stops; without one the port is 80 and the path is read at the host's end |
| `Request.Cat` | client.c:352-360 | strncat into finalPath never goes past 1199 characters |
| `Request.CatTruncated` | client.c:347-360 | appending to a truncated path is truncating the whole text |
| `Request.FinalPath` | client.c:345-362 | finalPath never exceeds 1199 characters and always starts with the path (cut to 1199) |
| `Request.RequestText` | client.c:364-367 | the snprintf format: `GET `, the final path, ` HTTP/1.1\r\nHost: `, the host and a blank line |
| `Request.BuildRequest` | client.c:339-373 | a request that is built fits the 2048-byte buffer |
| `Request.JoinedPrefixStep` | client.c:356-361 | each round of the parameter loop appends `&` and the parameter, the first round only the parameter |
| `Request.AppendStep` | client.c:356-361 | each round of the parameter loop keeps finalPath equal to the truncated query built so far |
| `Request.BuildHTTPRequest` | client.c:339-373 | the strncpy/strncat/snprintf sequence gives exactly BuildRequest's result |
| `Request.BuildFailsIff` | client.c:364-371 | building fails iff the request text would need 2048 or more bytes |
| `Request.BuildNeverFails` | client.c:346-371 | with a host under 256 characters building never fails, and the request fits the buffer |
| `Request.FinalPathUntruncated` | client.c:349-362 | a query that fits is path, `?` or `&`, then the parameters joined by `&` |
| `Request.FinalPathWithoutParams` | client.c:346-350 | with no parameters finalPath is the path truncated to 1199 characters |
| `Request.JoinAppend` | client.c:356-361 | joining two non-empty runs puts one `&` between them |
| `Request.QueryExamples` | client.c:349-362 | `/search` + `q=cat`,`n=2` gives `/search?q=cat&n=2`; `/x?a=1` + `b=2` gives `/x?a=1&b=2` |
| `Inspect.SpacesFrom` | client.c:501-503 | the space-skipping loop stops at the first non-space |
| `Inspect.StatusCode` | client.c:487-518 | extractStatusCode on a C string: -1 for an empty string, no `HTTP/`, no space after it or a code strtol does not fully read (its properties are the lemmas below) |
| `Inspect.ExtractStatusCode` | client.c:487-518 | the method computes exactly StatusCode of the response read as a C string |
| `Inspect.ShortConversionRange` | client.c:506-517 | a conversion of at most 3 characters lies in -99..999 |
| `Inspect.StatusCodeRange` | client.c:487-518 | every status code is in -99..999 |
| `Inspect.StatusCodeWithoutMark` | client.c:493-494 | without `HTTP/` the status is -1 |
| `Inspect.StatusCodeWithoutSpace` | client.c:497-498 | without a space after `HTTP/` the status is -1 |
| `Inspect.MarkAtStart` | client.c:493 | a response starting with `HTTP/` finds it at 0 |
| `Inspect.StatusLineCode` | client.c:492-517 | `HTTP/<version> <spaces><3 digits>...` yields those 3 digits' value |
| `Inspect.StatusCodeAt` | client.c:493-517 | the code is read after the first space run following `HTTP/` |
| `Inspect.MovedPermanentlyCode` | client.c:492-517 | `HTTP/1.1 301...` has status 301 |
| `Inspect.CodeWindow` | client.c:505-508 | the up to three characters after the space run that strncpy puts in codeBuf |
| `Inspect.StatusCodeOfWindow` | client.c:493-517 | wherever the first `HTTP/` stands, the code is strtol's value of the window after the first space run that follows it, or -1 when strtol does not read the whole window |
| `Inspect.HighCodeHasThreeDigits` | client.c:505-517 | a status of 100 or more (every 3xx) was read from a window of exactly three digits, and it is their decimal value |
| `Inspect.WindowOfHighCode` | client.c:506-517 | a fully read window of at most three characters worth 100 or more is three digits |
| `Inspect.EmptyWindowGivesZero` | client.c:501-517 | `HTTP/<version>` followed by spaces and nothing else has status 0, not -1 |
| `Inspect.LenientCode` | client.c:505-517 | a window that strtol reads whole after white space and a sign gives its signed value |
| `Inspect.PlusSignCodeExample` | client.c:511-517 | `HTTP/<version> +20` has status 20 |
| `Inspect.MinusSignCodeExample` | client.c:511-517 | `HTTP/<version> -5` has status -5 |
| `Inspect.TabBeforeCodeExample` | client.c:511-517 | `HTTP/<version> \t42` has status 42 |
| `Inspect.FindFirstAt` | client.c:493 | strstr reports the first occurrence of the needle |
| `Inspect.MarkOnLaterLineExample` | client.c:493-517 | after a first line without `H`, `HTTP/<version> <3 digits>` on the next line gives those digits: the mark is found on a later line |
| `Inspect.MarkAfterPrefix` | client.c:493 | behind a prefix without an `H`, strstr finds the `HTTP/` that opens the rest |
| `Inspect.IndexOfShift` | client.c:497 | strchr from inside a suffix finds the same space, shifted by the prefix length |
| `Inspect.SpacesFromShift` | client.c:501-503 | the space-skipping loop from inside a suffix stops at the same place, shifted |
| `Inspect.WindowShift` | client.c:505-508 | the window copied from inside a suffix is the suffix's own window |
| `Inspect.StatusCodeAfterMark` | client.c:493-517 | once the first `HTTP/` is located, the status is -1 without a later space, else strtol's value of the window when read whole, else -1 |
| `Inspect.StatusCodeFromParts` | client.c:493-517 | mark, space, space run and a three-digit window in place give the status as those digits' value |
| `Inspect.StatusLinePartsShifted` | client.c:497-508 | the space, space run and window of a status line keep their places, shifted, behind any prefix |
| `Inspect.StatusLineShifted` | client.c:493-517 | when the first `HTTP/` opens the suffix, the suffix's status line gives the status |
| `Inspect.StatusLineAfterPrefix` | client.c:493-517 | a status line with three digits behind a prefix without `H` gives those digits |
| `Inspect.ShortWindowLine` | client.c:505-517 | after `HTTP/<version> `, a window of up to three characters not opening with a space gives strtol's value when read whole, else -1 |
| `Inspect.FullConversionDigits` | client.c:511-514 | a positive value read from the whole window is the decimal value of the digits after the sign |
| `Inspect.NeedsThreeDigits` | client.c:505-508 | at most three digits worth 100 or more are exactly three |
| `Inspect.BlanksFrom` | client.c:540-542 | blank skipping stops at the first non-blank |
| `Inspect.LineEnd` | client.c:546-548 | the value ends at CR, LF, the end, or after 1023 characters |
| `Inspect.FindLocation` | client.c:534-536 | the first position where `location:` matches ignoring case |
| `Inspect.Location` | client.c:526-554 | a found Location has no CR or LF and fits the 1024-byte buffer |
| `Inspect.SkipBlanks` | client.c:540-542 | the loop stops where BlanksFrom says |
| `Inspect.CopyLine` | client.c:545-549 | the copy loop copies exactly the value up to LineEnd |
| `Inspect.ExtractLocationHeader` | client.c:526-554 | the scan gives exactly Location of the response read as a C string |
| `Inspect.LocationPresentIff` | client.c:534-553 | no Location iff `location:` matches nowhere, ignoring case |
| `Inspect.LocationLineValue` | client.c:534-550 | the first `location:` line, after its blanks, yields its value up to CR/LF |
| `Inspect.LocationAt` | client.c:534-550 | the value is the text between the blanks after the first match and the line end |
| `Inspect.FindLocationAt` | client.c:534-536 | the first match is found |
| `Inspect.UpperCaseNeedle` | client.c:536 | `LOCATION:` matches the needle ignoring case |
| `Inspect.UpperCaseLocationExample` | client.c:530-550 | `LOCATION:\thttp://a/` yields `http://a/` |
| `Transport.SendAll` | client.c:417-428 | the loop stops at the first send() that fails or completes the buffer: success (0) iff no send() failed, and then all bytes went out in order; failure (-1) comes from a call made while bytes were still unsent, after calls that all succeeded, with a prefix sent |
| `Transport.Grow` | client.c:456-460 | the growth as written covers the data but keeps the capacity when the chunk fits below it |
| `Transport.GrowWithRoom` | client.c:456-460 | the corrected growth always leaves a byte above the data |
| `Transport.GrowWithRoomAgrees` | client.c:456-460 | the corrected growth equals the original except where the original leaves no byte for the NUL |
| `Transport.MakeRoom` | client.c:456-469 | realloc keeps the stored bytes and yields the capacity as written (`Grow`) or under the correction (`GrowWithRoom`) |
| `Transport.CapacityAfter` | client.c:456-476 | the capacity as written after each recv() chunk, starting from no buffer |
| `Transport.Collect` | client.c:445-473 | the receive loop stores the chunks in order, with the capacity after them as written or under the correction; under the correction a byte is left over |
| `Transport.Realloc` | client.c:461-468 | the grown buffer starts with the old contents |
| `Transport.CopyAt` | client.c:471 | memcpy puts the chunk right after the stored bytes |
| `Transport.ReceiveResponse` | client.c:437-480 | with the corrected growth: success iff the peer closed; the response is the chunks in order, and the string handed back is that response plus its NUL |
| `Transport.ReceiveResponseAsWritten` | client.c:437-480 | as written: success iff the peer closed; the response is the chunks in order in a buffer of capacity `CapacityAfter`, and the NUL store is in bounds iff nothing arrived or a byte is left over |
| `Transport.CapacityNeverDecreases` | client.c:456-469 | the capacity only grows |
| `Transport.CapacityCoversData` | client.c:456-472 | the capacity as written covers the data |
| `Transport.ConcatPrefix` | client.c:471-472 | what is stored after some chunks is a prefix of the final response |
| `Transport.NulWriteOverflows` | client.c:456-476 | as written, a 1-byte chunk and then an 8192-byte chunk leave 8193 bytes in an 8193-byte buffer |
| `Transport.CapacityWithRoomExceedsData` | client.c:456-476 | with the corrected growth the capacity exceeds the data once anything arrived |
| `Redirect.Redirection` | client.c:127-140 | the URL main follows for an exchange, if any (its properties are RedirectionIff and RedirectionFromParts) |
| `Redirect.RedirectionIff` | client.c:127-138 | a response is followed iff its status is in [300, 400), it has a Location and that starts with `http://`; the target fits currentURL |
| `Redirect.StepAt` | client.c:80-145 | a pass that hops made the request parseURL and buildHTTPRequest give for its URL and was redirected; a pass that stops made at most one request and did not abort for redirects |
| `Redirect.StepOnExchange` | client.c:97-145 | each outcome of the connection ends the pass as the C branches do |
| `Redirect.RedirectionFromParts` | client.c:127-140 | the status, then the Location only on 3xx, then isHTTP decide the follow |
| `Redirect.HopTargetFits` | client.c:135 | the strncpy into currentURL keeps the whole target |
| `Redirect.Decide` | client.c:127-140 | the decision code computes exactly Redirection |
| `Redirect.LoopPass` | client.c:74-146 | one iteration either ends the loop or continues it with the counter one higher |
| `Redirect.Pass` | client.c:80-145 | one iteration of the body computes the body function |
| `Redirect.PassBody` | client.c:80-145 | parse, build, exchange and decide compute exactly StepAt |
| `Redirect.Redirects` | client.c:74-146 | the `while (1)` loop computes exactly the loop function |
| `Redirect.Run` | client.c:69-146 | main after argument parsing computes Follow from the URL cut to 1023 characters with counter 0 |
| `Redirect.Client` | client.c:63-146 | main: a usage error ends the program with no request; otherwise the run is Follow on the parsed command line |
| `Redirect.MainBodyBounded` | client.c:80-145 | each pass of main's body makes at most one request when it stops, for its own URL |
| `Redirect.MainBodyHopsOnRedirect` | client.c:127-137 | main's body continues only on a response it follows, to that response's target |
| `Redirect.Loop` | client.c:74-146 | the loop over any body: stop once the counter passes 10, else run the body and stop or go round with the counter one higher (its properties are the Loop lemmas) |
| `Redirect.MainBody` | client.c:80-145 | one pass of main's loop on a URL and connection number is StepAt with the command-line parameters and the server |
| `Redirect.Follow` | client.c:74-146 | main's loop is that loop over main's body (its properties are the Follow lemmas) |
| `Redirect.LoopLength` | client.c:74-79 | the loop makes at most 11 - count requests, the first for the starting URL |
| `Redirect.LoopKeeps` | client.c:74-146 | a property of every request a body issues holds of every request in the trace |
| `Redirect.LoopChains` | client.c:130-137 | each request after the first is for the URL the previous one was redirected to |
| `Redirect.LoopUnfold` | client.c:74-146 | a hop puts its request in front of the rest of the loop |
| `Redirect.LoopEndsAfterRequest` | client.c:142-145 | a normal end comes after at least one request |
| `Redirect.LoopEnds` | client.c:142-145 | a normal end is on the last request, whose response was not followed |
| `Redirect.LoopAbortLength` | client.c:75-79 | an abort for redirects comes after exactly 11 - count requests |
| `Redirect.LoopAbortRedirected` | client.c:75-79 | the last request before an abort was redirected |
| `Redirect.LoopAvoids` | client.c:74-146 | a failure no pass produces is never the loop's result |
| `Redirect.LoopRedirectsForever` | client.c:74-79 | if every pass hops, the loop aborts after 11 - count requests |
| `Redirect.FollowLength` | client.c:74-79 | main makes at most 11 requests, the first for its starting URL |
| `Redirect.FollowIssuesFromParams` | client.c:85-89 | every request is parseURL and buildHTTPRequest of its URL with the same command-line parameters |
| `Redirect.FollowChains` | client.c:127-137 | each request after the first is for the Location of the previous response, on the next connection |
| `Redirect.FollowEndsAfterRequest` | client.c:142-145 | main never finishes normally without a request |
| `Redirect.FollowEndsOnUnfollowedResponse` | client.c:127-145 | a normal finish prints the last response, which is not followed |
| `Redirect.FollowAbortsAfterElevenRequests` | client.c:75-79 | `Too many redirects` comes after exactly 11 requests from counter 0 |
| `Redirect.FollowAbortsOnRedirect` | client.c:132-137 | the last request before the abort was itself redirected |
| `Redirect.FollowNeverOverflowsRequest` | client.c:88-92 | the `Error building HTTP request` exit never happens |
| `Redirect.EndlessRedirectsAbort` | client.c:74-79 | a server that always redirects to a valid URL makes main abort after 11 requests |

## Left out

- connectToServer (client.c:382-410) is not modelled: name resolution, socket and connect are system calls. Whether the connection succeeds is part of the `Server` input.
- GPT.cpp is not part of this model: every one of its lines is commented out (GPT.cpp:1-652). It is an earlier draft of this same client and holds no code to model.
- Printing is left out: the request, the response bytes, the usage text and error messages on stdout and stderr. Normal and error ends are `Outcome` values; the printed response is the `Ok` bytes.
- `exit(1)` is a returned `Err`.
- The final `free` calls are left out, as are malloc, realloc and strdup failing (memory is unbounded in the model).
- errno and ERANGE are left out. An out-of-range strtol value is refused anyway by the 1..65535 test. The status conversion has at most 3 characters.
- `(int)n` and `(int)val` are left out: `n` is at most 65535, and `val` comes from at most 3 characters, so both fit an `int`.
- `(int)size` (client.c:478) is left out together with printing. It wraps for a response of 2^31 bytes or more, and the wrapped count only feeds the `fwrite` and the byte count printed at client.c:123-124.
- A peer that never closes the connection makes recv() block forever (client.c:445-447). receiveResponse reads until the server closes the connection, as its header comment says (client.c:430-436). The model does not capture it: the `Server` input always answers, and `Transport.Collect` takes a finite list of chunks.
- A trace entry is a request built and handed to a connection: when connecting fails it was never sent.
- `Redirect.Run` takes the exchange of each connection from the `Server` input. `Transport.SendAll` and `Transport.ReceiveResponse` model the send and receive loops on their own, on scripts of send() results and recv() chunks. They are not wired into the redirect loop.
- Transport.SendAll: requires a finite script that ends the loop. A send() that keeps returning 0 would loop forever in the C code and is not modelled.
- Transport.ReceiveResponse: uses the corrected growth (see Findings), not the growth as written. `Transport.ReceiveResponseAsWritten` runs the same loop with the growth as written and reports whether the NUL store would fit, instead of storing it.
- Bytes are `char`. `isdigit` and `strncasecmp` are taken in the C locale, on the ASCII letters and digits.
- In parseURL the host string and its 256-byte buffer are the same up to the length check. `url` is assumed non-NULL, as main always passes a buffer.

## Findings

| source | as written | input that shows it | evidently intended | confidence | as-written member | corrected member |
|---|---|---|---|---|---|---|
| client.c:456-476 | the grown capacity is raised only to `size + bytesRead`, then `(*response)[size] = '\0'` writes at index `size` | a 1-byte recv() chunk, then an 8192-byte chunk: capacity 2 grows to max(4, 8193) = 8193 with 8193 bytes stored, so the NUL is written one byte past the allocation | raise the capacity to at least `size + bytesRead + 1`, so the terminator always fits | not executed | `Transport.NulWriteOverflows` | `Transport.CapacityWithRoomExceedsData` |
