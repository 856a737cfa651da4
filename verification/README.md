# Simple web worker and igloo scoring, modelled in Dafny

This project models two parts of a small Java repository.

**The per-connection worker of the simple web server** (`SimpleWebServer/WebWorker.java`) handles one connection in four steps:

- It reads the request lines up to the first empty line. The last line containing `GET ` names the path.
- It classifies the location as one of five content types.
- It writes a `200 OK` header.
- It sends the content: HTML lines with the `<cs371date>` and `<cs371server>` tags expanded, image bytes unchanged, or a fixed 404 page when the file cannot be opened.

**The two igloo score classes** (`Program3/IglooScore1.java`, `Program3/IglooScore2.java`) store three judges' scores. Both document the same rule: drop the lowest score and add the other two. Neither computes it correctly for every input; see "## Findings".

The model is pure. The connection's input becomes a sequence of lines. The working directory becomes a `root` string. The two formatted dates are separate parameters: the header uses a GMT formatter and the HTML content uses the default one. The file system becomes a map from locations to files, each file seen both as lines and as bytes. Java `int` is `JavaInt.Int32`, with wrap-around written out. A score object is an immutable value; `recordScores` returns the updated value.

The model follows the code's actual behaviour, including where a reader might expect otherwise:

- The request line is found with a substring test for `GET `, not a prefix test. The path is always cut from index 4 of that line, so an indented request line yields a wrong path.
- The content type is chosen by a case-sensitive substring test on the whole location, root included. `.jpeg` is not recognised. Upper-case extensions are served as HTML. A `.jpg` anywhere in the location, even in the root directory, wins.
- A missing file gets the 404 page under a `200 OK` status line.

Modules:

- `WebText`: substring search, the scan to the first space, and splitting text into lines and joining lines back into text.
- `RequestParser`: the request reader.
- `ContentClassifier`: the content-type chain.
- `ResponseHeader`: the response header.
- `ContentDelivery`: the content step.
- `WebWorker`: the connection handler as a whole.
- `JavaInt`: Java `int` arithmetic.
- `Judging`: the documented scoring rule, and the state, constructor and `recordScores` that both score classes share.
- `IglooScore1` and `IglooScore2`: the two score classes.
- `Wrappers`: the `Option` and `Result` types.

## Model

| member | source | states |
|---|---|---|
| WebText.Contains | SimpleWebServer/WebWorker.java:57-60 | substring test used throughout the worker: true only if the pattern fits, and true whenever the pattern is a prefix |
| WebText.ContainsIff | SimpleWebServer/WebWorker.java:88 | the recursive substring test holds exactly when the pattern occurs at some index of the text |
| WebText.ContainsInContext | SimpleWebServer/WebWorker.java:57 | a contained pattern stays contained when text is added before or after |
| WebText.TakeUntilSpace | SimpleWebServer/WebWorker.java:90-95 | the truncated path is a prefix of the text with no space in it, and it stops only at a space or at the end |
| WebText.TakeUntilSpaceUnique | SimpleWebServer/WebWorker.java:90-95 | those three properties determine the truncated path uniquely |
| WebText.SplitJoinLines | SimpleWebServer/WebWorker.java:160-161 | writing each newline-free line followed by a newline and splitting the result at newlines gives back the lines in order |
| WebText.JoinLinesAppend | SimpleWebServer/WebWorker.java:152-162 | writing two groups of lines one after the other is the same as writing them all |
| RequestParser.ExtractPath | SimpleWebServer/WebWorker.java:88-95 | the path from a `GET ` line is the longest space-free prefix of the text from index 4 on |
| RequestParser.HeaderEnd | SimpleWebServer/WebWorker.java:84-103 | the reader consumes every line up to and including the first empty line, and no empty line comes earlier |
| RequestParser.LastGetIndex | SimpleWebServer/WebWorker.java:84-96 | the line whose path survives is the last `GET ` line read, and no later line read contains `GET ` |
| RequestParser.CutAtSpace | SimpleWebServer/WebWorker.java:90-95 | the index loop cutting the path at its first space computes the space-free prefix |
| RequestParser.ReadHTTPRequest | SimpleWebServer/WebWorker.java:79-106 | the reading loop returns the root followed by the path of the last `GET ` line of the header block, or just the root if there is none |
| RequestParser.ExtractPathOfRequestLine | SimpleWebServer/WebWorker.java:88-95 | for a request line `GET <p> <rest>` with a space-free `p`, the extracted path is exactly `p` |
| RequestParser.ExtractPathWithoutSpace | SimpleWebServer/WebWorker.java:89-95 | with no space after index 4, the whole rest of the line is the path |
| RequestParser.MarkerInsideLine | SimpleWebServer/WebWorker.java:88-89 | a request line indented by two spaces still matches, and its path is the single character `T` |
| RequestParser.HeaderEndPrefix | SimpleWebServer/WebWorker.java:98 | once an empty line has been read, later lines do not change how many lines are consumed |
| RequestParser.LastGetIndexPrefix | SimpleWebServer/WebWorker.java:84-96 | the last `GET ` line among the lines read does not depend on unread lines |
| RequestParser.IgnoresLinesAfterBlank | SimpleWebServer/WebWorker.java:84-103 | lines after the first empty line never change the path |
| RequestParser.SimpleRequestPath | SimpleWebServer/WebWorker.java:79-106 | a request line `GET <p> HTTP/1.1`, headers without `GET `, and an empty line yield exactly `p`, whatever follows |
| RequestParser.PathAfter | SimpleWebServer/WebWorker.java:81-96 | after some lines are read the path has no space; it is empty if none of them contains `GET `, and otherwise it is a prefix of the text after index 4 of one of them |
| RequestParser.RequestPath | SimpleWebServer/WebWorker.java:79-106 | the request's path has no space, and when it is not empty it is a prefix of the text after index 4 of a non-empty `GET ` line of the header block |
| RequestParser.NoGetLineEmptyPath | SimpleWebServer/WebWorker.java:81 | a request without any `GET ` line leaves the path empty, so the location is the root alone |
| RequestParser.LastGetFromStart | SimpleWebServer/WebWorker.java:84-96 | a `GET ` first line followed only by lines without `GET ` is the one whose path is kept |
| ContentClassifier.ContentTypeOf | SimpleWebServer/WebWorker.java:56-61 | the type is one of five, picked by the first of `.jpg`, `.png`, `.gif`, `.ico` found anywhere in the location, with HTML exactly when none is found |
| ContentClassifier.ImageTypes | SimpleWebServer/WebWorker.java:56-61 | exactly the non-HTML types contain `image`, so every non-HTML location takes the image branch of the content step |
| ContentClassifier.ImageTypeNamesImage | SimpleWebServer/WebWorker.java:57-60 | each of the four image types contains `image` |
| ContentClassifier.JpgAnywhere | SimpleWebServer/WebWorker.java:57 | `.jpg` anywhere in the location, even followed by another extension, makes it JPEG |
| ContentClassifier.NotContainsAfterDot | SimpleWebServer/WebWorker.java:57-60 | a name whose only dot starts its extension holds a marker only if the extension agrees with the marker at every position |
| ContentClassifier.NoMarkerIsHtml | SimpleWebServer/WebWorker.java:61 | a location with none of the four markers is HTML |
| ContentClassifier.JpegSpellingIsHtml | SimpleWebServer/WebWorker.java:57-61 | a file named with the `.jpeg` spelling is served as HTML |
| ContentClassifier.UpperCaseIsHtml | SimpleWebServer/WebWorker.java:57-61 | matching is case-sensitive: a `.JPG` file is served as HTML |
| ContentClassifier.NotContainsMissingChar | SimpleWebServer/WebWorker.java:163 | a pattern with a character the text lacks is not contained in it, which is why `text/html` does not contain `image` |
| ResponseHeader.WriteHTTPHeader | SimpleWebServer/WebWorker.java:113-128 | the header is the six header lines each ending in a newline: 88 characters plus the date and the type, starting with the status line and ending in two newlines |
| ResponseHeader.HeaderLines | SimpleWebServer/WebWorker.java:118-126 | a client splitting the header at newlines reads the status line, the date, server, connection and content-type fields, and the empty line ending the block |
| ResponseHeader.FixedTextNoNewline | SimpleWebServer/WebWorker.java:118-124 | the fixed texts of the header hold no newline, so each field is exactly one line |
| ResponseHeader.HeaderInjective | SimpleWebServer/WebWorker.java:118-126 | a client can recover the date and the content type from the header |
| ContentDelivery.RenderLine | SimpleWebServer/WebWorker.java:152-161 | a line keeps its text; the date is appended to the end of a line holding the date tag; otherwise a newline and the host name are appended to the end of a line holding the server tag; otherwise the line is unchanged |
| ContentDelivery.HtmlBody | SimpleWebServer/WebWorker.java:151-162 | a file with no tags is sent exactly as its lines, each followed by a newline |
| ContentDelivery.WriteContent | SimpleWebServer/WebWorker.java:135-170 | not-found exactly when the file cannot be opened, with the 404 page; an HTML file is sent as its rendered lines; any other type naming an image is sent as the file's bytes |
| ContentDelivery.HtmlBodyAppend | SimpleWebServer/WebWorker.java:152-162 | rendering a file in two parts gives the rendering of the whole file |
| ContentDelivery.OutputLineCount | SimpleWebServer/WebWorker.java:152-162 | every file line becomes at least one output line, and an untagged file's output lines are its own lines |
| ContentDelivery.HtmlBodyIsOutputLines | SimpleWebServer/WebWorker.java:152-161 | the HTML body is the output lines, each followed by a newline; a server-tag line becomes two lines |
| ContentDelivery.HtmlBodyLines | SimpleWebServer/WebWorker.java:151-162 | a client splitting the HTML body at newlines reads the output lines in order, then the empty text after the last newline |
| ContentDelivery.OutputLinesNoNewline | SimpleWebServer/WebWorker.java:155-158 | if neither the file's lines nor the date hold a newline, no output line does either |
| ContentDelivery.UntaggedFileVerbatim | SimpleWebServer/WebWorker.java:151-162 | an untagged HTML file reaches the client line for line |
| WebWorker.Open | SimpleWebServer/WebWorker.java:139-145 | a file is opened exactly when one exists at the location, and it is that file |
| WebWorker.Run | SimpleWebServer/WebWorker.java:49-71 | the header always starts with the `200 OK` status line and announces the type classified from root plus path; the connection fails exactly when no file exists there, and then the body is the 404 page |
| WebWorker.MissingFileStill200 | SimpleWebServer/WebWorker.java:62-63 | a missing file is answered with the 404 page under a first header line `HTTP/1.1 200 OK` |
| WebWorker.HtmlServed | SimpleWebServer/WebWorker.java:56-62 | an existing file whose location holds no image marker is announced as `text/html` and sent as its rendered lines, and the connection does not fail |
| WebWorker.ImageServedVerbatim | SimpleWebServer/WebWorker.java:163-169 | an existing file with an image type is sent byte for byte, and the connection does not fail |
| WebWorker.PngRequest | SimpleWebServer/WebWorker.java:49-71 | a well-formed request for a `.png` path is answered with the PNG header and the file's bytes |
| JavaInt.Add | Program3/IglooScore2.java:52 | Java `int` addition: the exact sum whenever that fits in 32 bits |
| JavaInt.Sub | Program3/IglooScore1.java:45 | Java `int` subtraction: the exact difference whenever that fits in 32 bits |
| JavaInt.WrapSpec | Program3/IglooScore1.java:45 | a wrapped `int` result agrees with the exact value modulo 2^32 and equals it when it fits |
| JavaInt.WrapUnique | Program3/IglooScore1.java:45 | exactly one `int` agrees with a value modulo 2^32 |
| JavaInt.AddStep | Program3/IglooScore1.java:45 | wrapping after each addition gives the same result as wrapping the exact sum once |
| JavaInt.SubStep | Program3/IglooScore1.java:45 | wrapping after a subtraction gives the same result as wrapping the exact difference once |
| Judging.SumOfTwoHighest | Program3/IglooScore1.java:5-9 | the documented score is the largest sum of two of the three scores, which is the total minus the lowest score |
| Judging.New | Program3/IglooScore1.java:22-27 | a new object of either class holds three zero scores |
| Judging.RecordScores | Program3/IglooScore1.java:29-34 | the recorded scores are exactly the arguments |
| Judging.RecordScoresOverwrites | Program3/IglooScore2.java:29-34 | recording forgets every earlier score |
| IglooScore1.OverallScore | Program3/IglooScore1.java:36-47 | the score is the wrapped total minus the smaller of the third score and the larger of the first two, so it is always the wrapped sum of some two scores |
| IglooScore1.NewScoresZero | Program3/IglooScore1.java:22-47 | a new object scores zero |
| IglooScore1.OverallScoreExact | Program3/IglooScore1.java:45 | with scores in 0..50 nothing wraps |
| IglooScore1.OverallScoreRange | Program3/IglooScore1.java:36-47 | with scores in 0..50 the result is the sum of two of them and lies in 0..100 |
| IglooScore1.OverallScoreCorrectWhenThirdLowest | Program3/IglooScore1.java:38-46 | when the third score is lowest, the documented rule holds for every `int` input |
| IglooScore1.OverallScoreCorrectIff | Program3/IglooScore1.java:38-46 | for valid scores, the documented rule holds if and only if the third score is lowest or the first two are equal |
| IglooScore1.OverallScoreCounterexample | Program3/IglooScore1.java:38-46 | scores 10, 20, 30 give 40, but the documented rule gives 50 |
| IglooScore2.Lowest | Program3/IglooScore2.java:39-51 | each case names a score strictly below the other two, and the fallback is taken exactly when the lowest value is shared |
| IglooScore2.OverallScore | Program3/IglooScore2.java:36-54 | per case: first lowest gives the second plus the third score; second or third lowest gives the first plus the second; a shared minimum gives 99 + 99 |
| IglooScore2.ScoreArguments | Program3/IglooScore2.java:71-77 | the scores are accepted exactly when all lie in 0..50, otherwise rejected with the range message; an accepted input is scored by a fresh object that records it, which lands in 0..100, or 198 when the minimum is shared |
| IglooScore2.NewScoresTie | Program3/IglooScore2.java:22-54 | a new object has a shared minimum and scores 198 |
| IglooScore2.StrictLowestDropped | Program3/IglooScore2.java:39-47 | when the first or the third score is strictly lowest, the documented rule holds |
| IglooScore2.SecondLowestKept | Program3/IglooScore2.java:42-44 | when the second score is strictly lowest it is kept: the result falls short of the documented rule by the gap between the third and second scores |
| IglooScore2.SecondLowestCounterexample | Program3/IglooScore2.java:42-44 | scores 20, 10, 30 give 30, but the documented rule gives 50 |
| IglooScore2.TieCounterexample | Program3/IglooScore2.java:48-51 | scores 10, 10, 30 give 198, but the documented rule gives 40; 198 is above any valid sum |

## Left out

- `SimpleWebServer/WebServer.java` (the listening socket, accepting connections, starting threads) is not part of this model.
- The `ready()`/`sleep` polling at line 86 is not modelled; the request is given as the lines it holds, and the loop stops when they run out. That stop is an abstraction: in the code, input that ends without an empty line leaves `ready()` false, so the worker keeps polling and never answers.
- How `readLine` splits input at `\r`, `\n` or `\r\n` is not modelled. Requests and HTML files are given as already-split lines, and an HTML file's bytes are given separately.
- The `user.dir` lookup, the clock and both date formatters are replaced by the `root`, `headerDate` and `contentDate` parameters.
- Socket streams, `flush`, `close` and the diagnostic log lines are not modelled. The exception thrown after the 404 page is the `failed` flag of the response.
- The image branch assumes that the single `read` call fills the buffer with the whole file. A short read is not modelled.
- The buffer size at line 165 is the file length cast to `int`. For files of 2^31 bytes or more that cast truncates, so the code throws or sends only part of the file. `ContentDelivery.WriteContent` always sends every byte.
- Strings are Dafny sequences of Unicode characters, while Java indexes strings by UTF-16 code units. The cut at index 4 (line 89) therefore differs for lines holding characters outside the Basic Multilingual Plane before the cut. Header and body text are kept as strings; their `getBytes()` encoding in the platform charset is not modelled.
- A date string, content type or HTML line containing a `\n` is excluded from the line-splitting lemmas by their `NoNewline` preconditions: `ResponseHeader.HeaderLines` and `ResponseHeader.HeaderInjective` for the header date and type, and the `ContentDelivery` line lemmas for the file's lines and the content date. `WriteHTTPHeader`, `WriteContent` and `RenderLine` themselves cover every input.
- JavaInt.Add: its contract states only the case where the sum fits; the wrapped result of an overflowing sum is stated by `JavaInt.WrapSpec` and `JavaInt.AddStep` instead, because a modular postcondition on `Add` makes every proof that uses it too costly.
- JavaInt.Sub: its contract states only the case where the difference fits; the overflowing case is stated by `JavaInt.WrapSpec` and `JavaInt.SubStep`, for the same reason.
- `IglooScore1.main` and the argument handling in `IglooScore2.main` are not modelled: argument counting, `Integer.parseInt` and printing. `IglooScore2.ScoreArguments` starts from three parsed `int` values.
- `Program4/Circle1.java`, `Program4/Circle2.java` and their tests are not part of this model.

## Findings

| source | as written | input that shows it | evidently intended | confidence | as-written member | corrected member |
|---|---|---|---|---|---|---|
| Program3/IglooScore1.java:38-46 | subtracts the smaller of the third score and the larger of the first two, which is not always the lowest score | scores 10, 20, 30 give 40 | total minus the lowest score, 50 | high; not executed | IglooScore1.OverallScoreCounterexample | Judging.SumOfTwoHighest |
| Program3/IglooScore2.java:42-44 | when the second score is strictly lowest, adds the first and second scores, keeping the lowest | scores 20, 10, 30 give 30 | first plus third score, 50 | high; not executed | IglooScore2.SecondLowestCounterexample | Judging.SumOfTwoHighest |
| Program3/IglooScore2.java:48-51 | when no score is strictly lowest, returns 99 + 99 | scores 10, 10, 30 give 198 | sum of the two highest, 40 | high; not executed | IglooScore2.TieCounterexample | Judging.SumOfTwoHighest |
