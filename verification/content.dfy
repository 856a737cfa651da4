/**
 * Content delivery of the web worker: HTML files are sent line by line with
 * the two template tags expanded, image files are sent as their bytes, and a
 * file that cannot be opened yields the fixed "404 not found" page. The file
 * system is replaced by an optional file value.
 */
module ContentDelivery {
  import opened Wrappers
  import opened WebText

  type Byte = bv8

  /** A readable file, seen both as the lines a line reader returns and as raw bytes. */
  datatype File = File(lines: seq<string>, bytes: seq<Byte>)

  /** What the worker writes after the header: text or raw bytes. */
  datatype Body = Text(text: string) | Binary(bytes: seq<Byte>)

  /** The body written, and whether delivery ended in the not-found error. */
  datatype Delivery = Delivery(body: Body, notFound: bool)

  const DateTag: string := "<cs371date>"
  const ServerTag: string := "<cs371server>"
  const ServerHost: string := "i-cant-believe-this-works.alex.gov"
  /** The three pieces the worker writes when the file cannot be opened, joined. */
  const NotFoundPage: string := "<html><body><h3>404 not found</h3></body></html>"

  /**
   * One HTML line as written, before its newline: a line with the date tag
   * gets the date appended; otherwise a line with the server tag gets a
   * newline and the server host name appended. The tag itself stays.
   */
  function RenderLine(line: string, date: string): (r: string)
    ensures line <= r
    ensures Contains(line, DateTag) ==> r[|line|..] == date
    ensures !Contains(line, DateTag) && Contains(line, ServerTag) ==> r[|line|..] == "\n" + ServerHost
    ensures !Contains(line, DateTag) && !Contains(line, ServerTag) ==> r == line
  {
    if Contains(line, DateTag) then line + date
    else if Contains(line, ServerTag) then line + "\n" + ServerHost
    else line
  }

  /** No line carries either template tag. */
  predicate Untagged(lines: seq<string>)
  {
    forall k :: 0 <= k < |lines| ==> !Contains(lines[k], DateTag) && !Contains(lines[k], ServerTag)
  }

  /** The HTML body: every line of the file rendered and followed by a newline. */
  function HtmlBody(lines: seq<string>, date: string): (body: string)
    ensures Untagged(lines) ==> body == JoinLines(lines)
  {
    if |lines| == 0 then "" else RenderLine(lines[0], date) + "\n" + HtmlBody(lines[1..], date)
  }

  /**
   * The worker's content step: 404 page when the file cannot be opened, the
   * rendered lines for `text/html`, the unchanged bytes for any type naming
   * an image, and nothing for any other type.
   */
  function WriteContent(file: Option<File>, contentType: string, date: string): (d: Delivery)
    ensures d.notFound <==> file.None?
    ensures file.None? ==> d.body == Text(NotFoundPage)
    ensures file.Some? && contentType != "text/html" && Contains(contentType, "image")
      ==> d.body == Binary(file.value.bytes)
    ensures file.Some? && contentType == "text/html" ==> d.body == Text(HtmlBody(file.value.lines, date))
  {
    match file
    case None => Delivery(Text(NotFoundPage), true)
    case Some(f) =>
      if contentType == "text/html" then Delivery(Text(HtmlBody(f.lines, date)), false)
      else if Contains(contentType, "image") then Delivery(Binary(f.bytes), false)
      else Delivery(Text(""), false)
  }

  /** The output lines one file line turns into, as a client splitting at newlines reads them. */
  function OutputLines(line: string, date: string): seq<string>
  {
    if Contains(line, DateTag) then [line + date]
    else if Contains(line, ServerTag) then [line, ServerHost]
    else [line]
  }

  /** The output lines of a whole file, in order. */
  function AllOutputLines(lines: seq<string>, date: string): seq<string>
  {
    if |lines| == 0 then [] else OutputLines(lines[0], date) + AllOutputLines(lines[1..], date)
  }

  /** Rendering distributes over a split of the file. */
  lemma {:induction false} HtmlBodyAppend(a: seq<string>, b: seq<string>, date: string)
    ensures HtmlBody(a + b, date) == HtmlBody(a, date) + HtmlBody(b, date)
  {
    if |a| == 0 {
      assert a + b == b;
    } else {
      assert (a + b)[1..] == a[1..] + b;
      HtmlBodyAppend(a[1..], b, date);
    }
  }

  /** Every line of the file yields at least one output line, a server-tag line two. */
  lemma {:induction false} OutputLineCount(lines: seq<string>, date: string)
    ensures |AllOutputLines(lines, date)| >= |lines|
    ensures Untagged(lines) ==> AllOutputLines(lines, date) == lines
  {
    if |lines| > 0 {
      OutputLineCount(lines[1..], date);
      if Untagged(lines) {
        assert Untagged(lines[1..]) by {
          forall k | 0 <= k < |lines[1..]|
            ensures !Contains(lines[1..][k], DateTag) && !Contains(lines[1..][k], ServerTag)
          {
            assert lines[1..][k] == lines[k + 1];
          }
        }
        HeadTailAppend(lines, []);
      }
    }
  }

  /** The HTML body is exactly the output lines, each followed by a newline. */
  lemma {:induction false} HtmlBodyIsOutputLines(lines: seq<string>, date: string)
    ensures HtmlBody(lines, date) == JoinLines(AllOutputLines(lines, date))
  {
    if |lines| > 0 {
      var first := OutputLines(lines[0], date);
      HtmlBodyIsOutputLines(lines[1..], date);
      JoinLinesAppend(first, AllOutputLines(lines[1..], date));
      assert JoinLines(first) == RenderLine(lines[0], date) + "\n" by {
        if !Contains(lines[0], DateTag) && Contains(lines[0], ServerTag) {
          assert first[1..] == [ServerHost];
          assert JoinLines(first[1..]) == ServerHost + "\n" + JoinLines([]);
        } else {
          assert JoinLines(first[1..]) == "";
        }
      }
    }
  }

  /**
   * A client that splits the HTML body at newlines reads the output lines of
   * the file in order, then the empty text after the final newline. Neither
   * the file's lines nor the date may hold a newline.
   */
  lemma HtmlBodyLines(lines: seq<string>, date: string)
    requires forall k :: 0 <= k < |lines| ==> NoNewline(lines[k])
    requires NoNewline(date)
    ensures SplitLines(HtmlBody(lines, date)) == AllOutputLines(lines, date) + [""]
  {
    HtmlBodyIsOutputLines(lines, date);
    OutputLinesNoNewline(lines, date);
    SplitJoinLines(AllOutputLines(lines, date), "");
    assert JoinLines(AllOutputLines(lines, date)) + "" == JoinLines(AllOutputLines(lines, date));
  }

  /** Output lines hold no newline when neither the file's lines nor the date do. */
  lemma {:induction false} OutputLinesNoNewline(lines: seq<string>, date: string)
    requires forall k :: 0 <= k < |lines| ==> NoNewline(lines[k])
    requires NoNewline(date)
    ensures forall k :: 0 <= k < |AllOutputLines(lines, date)| ==> NoNewline(AllOutputLines(lines, date)[k])
  {
    if |lines| > 0 {
      OutputLinesNoNewline(lines[1..], date);
      NoNewlineConcat(lines[0], date);
      ServerHostNoNewline();
      var first := OutputLines(lines[0], date);
      var rest := AllOutputLines(lines[1..], date);
      assert forall k :: 0 <= k < |first| ==> NoNewline(first[k]);
      assert forall k :: 0 <= k < |first + rest| ==> (first + rest)[k] == (if k < |first| then first[k] else rest[k - |first|]);
    }
  }

  /** The host name appended after a server tag holds no newline. */
  lemma ServerHostNoNewline()
    ensures NoNewline(ServerHost)
  {
  }

  /** An untagged HTML file reaches the client unchanged, line for line. */
  lemma UntaggedFileVerbatim(lines: seq<string>, date: string)
    requires forall k :: 0 <= k < |lines| ==> NoNewline(lines[k])
    requires Untagged(lines)
    ensures SplitLines(HtmlBody(lines, date)) == lines + [""]
  {
    SplitJoinLines(lines, "");
    assert JoinLines(lines) + "" == JoinLines(lines);
  }
}
