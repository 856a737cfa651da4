/**
 * The response header of the web worker. The status line is always
 * `200 OK`, whether or not the requested file exists; the date is the
 * already-formatted timestamp (the clock and the GMT formatter are left out).
 */
module ResponseHeader {
  import opened WebText

  const StatusLine: string := "HTTP/1.1 200 OK"
  const ServerName: string := "Alex's very own server"

  /** The header text in the order the worker writes its pieces. */
  function WriteHTTPHeader(date: string, contentType: string): (h: string)
    ensures h == JoinLines(HeaderBlock(date, contentType))
    ensures |h| == 88 + |date| + |contentType|
    ensures h[..|StatusLine| + 1] == StatusLine + "\n"
    ensures h[|h| - 2..] == "\n\n"
  {
    JoinSixLines(StatusLine, "Date: " + date, "Server: " + ServerName, "Connection: close",
      "Content-Type: " + contentType, "");
    assert "Content-Type: " + contentType + "\n" + ("" + "\n" + "") == "Content-Type: " + contentType + "\n\n";
    StatusLine + "\n"
    + ("Date: " + date + "\n"
    + ("Server: " + ServerName + "\n"
    + ("Connection: close" + "\n"
    + ("Content-Type: " + contentType + "\n\n"))))
  }

  /** The header block as lines: status line, four fields, and the empty line ending the block. */
  function HeaderBlock(date: string, contentType: string): seq<string>
  {
    [StatusLine, "Date: " + date, "Server: " + ServerName, "Connection: close",
     "Content-Type: " + contentType, ""]
  }

  /** Six lines joined with their newlines, unrolled. */
  lemma JoinSixLines(a0: string, a1: string, a2: string, a3: string, a4: string, a5: string)
    ensures JoinLines([a0, a1, a2, a3, a4, a5])
      == a0 + "\n" + (a1 + "\n" + (a2 + "\n" + (a3 + "\n" + (a4 + "\n" + (a5 + "\n" + "")))))
  {
    var ls := [a0, a1, a2, a3, a4, a5];
    assert JoinLines(ls[6..]) == "";
    assert JoinLines(ls[5..]) == a5 + "\n" + "";
    assert JoinLines(ls[4..]) == a4 + "\n" + JoinLines(ls[5..]);
    assert JoinLines(ls[3..]) == a3 + "\n" + JoinLines(ls[4..]);
    assert JoinLines(ls[2..]) == a2 + "\n" + JoinLines(ls[3..]);
    assert JoinLines(ls[1..]) == a1 + "\n" + JoinLines(ls[2..]);
  }

  /**
   * Read line by line, the header is the status line, the four fields in
   * order, and the empty line that ends the block.
   */
  lemma HeaderLines(date: string, contentType: string)
    requires NoNewline(date) && NoNewline(contentType)
    ensures SplitLines(WriteHTTPHeader(date, contentType)) == HeaderBlock(date, contentType) + [""]
  {
    FixedTextNoNewline();
    NoNewlineConcat("Date: ", date);
    NoNewlineConcat("Content-Type: ", contentType);
    var block := HeaderBlock(date, contentType);
    assert forall k :: 0 <= k < |block| ==> NoNewline(block[k]);
    SplitJoinLines(block, "");
    assert JoinLines(block) + "" == JoinLines(block);
  }

  /** The fixed parts of the header hold no newline. */
  lemma FixedTextNoNewline()
    ensures NoNewline(StatusLine) && NoNewline("Date: ") && NoNewline("Server: " + ServerName)
    ensures NoNewline("Connection: close") && NoNewline("Content-Type: ")
  {
    StatusLineNoNewline();
    ServerNameNoNewline();
    NoNewlineConcat("Server: ", ServerName);
  }

  /** The status line holds no newline. */
  lemma StatusLineNoNewline()
    ensures NoNewline(StatusLine)
  {
  }

  /** The server name holds no newline. */
  lemma ServerNameNoNewline()
    ensures NoNewline(ServerName)
  {
  }

  /** The header determines the date and the content type it announces. */
  lemma HeaderInjective(d1: string, c1: string, d2: string, c2: string)
    requires NoNewline(d1) && NoNewline(c1) && NoNewline(d2) && NoNewline(c2)
    requires WriteHTTPHeader(d1, c1) == WriteHTTPHeader(d2, c2)
    ensures d1 == d2 && c1 == c2
  {
    HeaderLines(d1, c1);
    HeaderLines(d2, c2);
    var e1, e2 := HeaderBlock(d1, c1) + [""], HeaderBlock(d2, c2) + [""];
    assert e1 == e2;
    assert e1[1] == "Date: " + d1 && e2[1] == "Date: " + d2;
    assert e1[4] == "Content-Type: " + c1 && e2[4] == "Content-Type: " + c2;
    PrefixCancel("Date: ", d1, d2);
    PrefixCancel("Content-Type: ", c1, c2);
  }

  /** A common prefix can be cancelled. */
  lemma PrefixCancel(p: string, a: string, b: string)
    requires p + a == p + b
    ensures a == b
  {
    assert a == (p + a)[|p|..];
    assert b == (p + b)[|p|..];
  }
}
