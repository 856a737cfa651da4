/**
 * The request reader of the web worker: it scans the lines of an HTTP
 * request up to the first empty line and keeps the resource path named by
 * the last line that contains "GET ". The socket, the readiness polling and
 * the working-directory lookup are replaced by a sequence of lines and a
 * `root` parameter.
 */
module RequestParser {
  import opened Wrappers
  import opened WebText

  const GetMarker: string := "GET "

  /**
   * The path named by a line that contains "GET ": the text from index 4 on
   * (wherever in the line the marker was found), cut at its first space.
   * The marker guarantees that index 4 is within the line.
   */
  function ExtractPath(line: string): (p: string)
    requires Contains(line, GetMarker)
    ensures p <= line[4..]
    ensures forall i :: 0 <= i < |p| ==> p[i] != ' '
    ensures |p| < |line| - 4 ==> line[4 + |p|] == ' '
  {
    TakeUntilSpace(line[4..])
  }

  /**
   * How many lines the reader consumes: all of them up to and including the
   * first empty line, or every line when none is empty.
   */
  function HeaderEnd(lines: seq<string>): (n: nat)
    ensures n <= |lines|
    ensures forall j :: 0 <= j < n - 1 ==> lines[j] != ""
    ensures n < |lines| ==> 0 < n && lines[n - 1] == ""
  {
    if |lines| == 0 then 0
    else if lines[0] == "" then 1
    else 1 + HeaderEnd(lines[1..])
  }

  /** The index of the last of the first `n` lines that contains "GET ". */
  function LastGetIndex(lines: seq<string>, n: nat): (r: Option<nat>)
    requires n <= |lines|
    ensures r.Some? ==> r.value < n && Contains(lines[r.value], GetMarker)
    ensures r.Some? ==> forall j :: r.value < j < n ==> !Contains(lines[j], GetMarker)
    ensures r.None? ==> forall j :: 0 <= j < n ==> !Contains(lines[j], GetMarker)
  {
    if n == 0 then None
    else if Contains(lines[n - 1], GetMarker) then Some(n - 1)
    else LastGetIndex(lines, n - 1)
  }

  /**
   * The path held by the reader after it has consumed the first `n` lines:
   * empty when none of them contains "GET ", otherwise a space-free prefix
   * of the text after index 4 of one of them.
   */
  function PathAfter(lines: seq<string>, n: nat): (p: string)
    requires n <= |lines|
    ensures forall i :: 0 <= i < |p| ==> p[i] != ' '
    ensures (forall j :: 0 <= j < n ==> !Contains(lines[j], GetMarker)) ==> p == ""
    ensures p != "" ==> exists j :: 0 <= j < n && Contains(lines[j], GetMarker) && p <= lines[j][4..]
  {
    match LastGetIndex(lines, n)
    case None => ""
    case Some(i) => ExtractPath(lines[i])
  }

  /**
   * The resource path of a request: taken from the last "GET " line of the
   * header block, or empty when the block has none.
   */
  function RequestPath(lines: seq<string>): (p: string)
    ensures forall i :: 0 <= i < |p| ==> p[i] != ' '
    ensures p != "" ==> exists j :: 0 <= j < HeaderEnd(lines) && lines[j] != "" && Contains(lines[j], GetMarker)
                                    && p <= lines[j][4..]
  {
    PathAfter(lines, HeaderEnd(lines))
  }

  /**
   * The path-truncating loop of the reader: scan for the first space and cut
   * the text there.
   */
  method CutAtSpace(s: string) returns (path: string)
    ensures path == TakeUntilSpace(s)
  {
    path := s;
    var i := 0;
    while i < |path|
      invariant i <= |path|
      invariant path == s
      invariant forall j :: 0 <= j < i ==> path[j] != ' '
      decreases |path| - i
    {
      if path[i] == ' ' {
        path := path[..i];
        break;
      }
      i := i + 1;
    }
    TakeUntilSpaceUnique(s, path);
  }

  /** A non-empty line preceded only by non-empty lines lies inside the header block. */
  lemma HeaderEndBeyond(lines: seq<string>, k: nat)
    requires k < |lines|
    requires forall j :: 0 <= j <= k ==> lines[j] != ""
    ensures k + 1 <= HeaderEnd(lines)
  {
  }

  /** The first empty line ends the header block. */
  lemma HeaderEndAtBlank(lines: seq<string>, k: nat)
    requires k < |lines| && lines[k] == ""
    requires forall j :: 0 <= j < k ==> lines[j] != ""
    ensures HeaderEnd(lines) == k + 1
  {
  }

  /**
   * The reader as written: a loop over the lines that overwrites the path on
   * every "GET " line, truncates it at the first space, and stops after the
   * first empty line. It returns the root directory followed by the path.
   */
  method ReadHTTPRequest(lines: seq<string>, root: string) returns (url: string)
    ensures url == root + RequestPath(lines)
  {
    var path := "";
    var k := 0;
    while k < |lines|
      invariant k <= HeaderEnd(lines)
      invariant forall j :: 0 <= j < k ==> lines[j] != ""
      invariant path == PathAfter(lines, k)
      decreases |lines| - k
    {
      var line := lines[k];
      if Contains(line, GetMarker) {
        path := CutAtSpace(line[4..]);
      }
      assert path == PathAfter(lines, k + 1);
      if |line| == 0 {
        HeaderEndAtBlank(lines, k);
        k := k + 1;
        break;
      }
      HeaderEndBeyond(lines, k);
      k := k + 1;
    }
    url := root + path;
  }

  /**
   * A request line `GET <p> <rest>` with no space in `p` names exactly `p`:
   * the protocol token after the path is dropped.
   */
  lemma ExtractPathOfRequestLine(p: string, rest: string)
    requires forall i :: 0 <= i < |p| ==> p[i] != ' '
    ensures Contains(GetMarker + p + " " + rest, GetMarker)
    ensures ExtractPath(GetMarker + p + " " + rest) == p
  {
    var line := GetMarker + p + " " + rest;
    assert line[..|GetMarker|] == GetMarker;
    assert line[4..][..|p|] == p;
    TakeUntilSpaceUnique(line[4..], p);
  }

  /** When no space follows index 4, the path is the whole rest of the line. */
  lemma ExtractPathWithoutSpace(line: string)
    requires Contains(line, GetMarker)
    requires forall i :: 4 <= i < |line| ==> line[i] != ' '
    ensures ExtractPath(line) == line[4..]
  {
    TakeUntilSpaceUnique(line[4..], line[4..]);
  }

  /**
   * The marker need not start the line: any line containing "GET " is cut at
   * index 4, so a request line indented by two spaces yields "T" whatever follows.
   */
  lemma MarkerInsideLine(rest: string)
    ensures Contains("  " + GetMarker + rest, GetMarker)
    ensures ExtractPath("  " + GetMarker + rest) == "T"
  {
    var line := "  " + GetMarker + rest;
    assert line[2..6] == GetMarker;
    ContainsAt(line, GetMarker, 2);
    assert line[4..][..2] == "T ";
    TakeUntilSpaceUnique(line[4..], "T");
  }

  /** Reading a prefix that already ends the header block consumes the same lines. */
  lemma {:induction false} HeaderEndPrefix(lines: seq<string>, rest: seq<string>)
    requires HeaderEnd(lines) < |lines| || (0 < |lines| && lines[|lines| - 1] == "")
    ensures HeaderEnd(lines + rest) == HeaderEnd(lines)
  {
    assert (lines + rest)[0] == lines[0];
    if lines[0] != "" {
      assert (lines + rest)[1..] == lines[1..] + rest;
      HeaderEndPrefix(lines[1..], rest);
    }
  }

  /** The last "GET " line among the first `n` lines does not depend on later lines. */
  lemma {:induction false} LastGetIndexPrefix(lines: seq<string>, rest: seq<string>, n: nat)
    requires n <= |lines|
    ensures LastGetIndex(lines + rest, n) == LastGetIndex(lines, n)
  {
    if n > 0 {
      assert (lines + rest)[n - 1] == lines[n - 1];
      LastGetIndexPrefix(lines, rest, n - 1);
    }
  }

  /** Lines after the first empty line never influence the path. */
  lemma IgnoresLinesAfterBlank(lines: seq<string>, rest: seq<string>)
    requires exists j :: 0 <= j < |lines| && lines[j] == ""
    ensures RequestPath(lines + rest) == RequestPath(lines)
  {
    var n := HeaderEnd(lines);
    HeaderEndPrefix(lines, rest);
    LastGetIndexPrefix(lines, rest, n);
    if LastGetIndex(lines, n).Some? {
      assert (lines + rest)[LastGetIndex(lines, n).value] == lines[LastGetIndex(lines, n).value];
    }
  }

  /** A header block without any "GET " line yields the empty path. */
  lemma NoGetLineEmptyPath(lines: seq<string>)
    requires forall j :: 0 <= j < |lines| ==> !Contains(lines[j], GetMarker)
    ensures RequestPath(lines) == ""
  {
  }

  /**
   * A well-formed request `GET <p> HTTP/1.1`, further header lines without
   * "GET ", and the blank line yields exactly `p`, whatever follows the blank line.
   */
  lemma {:induction false} SimpleRequestPath(p: string, headers: seq<string>, tail: seq<string>)
    requires forall i :: 0 <= i < |p| ==> p[i] != ' '
    requires forall j :: 0 <= j < |headers| ==> headers[j] != "" && !Contains(headers[j], GetMarker)
    ensures RequestPath([GetMarker + p + " HTTP/1.1"] + headers + [""] + tail) == p
  {
    var first := GetMarker + p + " HTTP/1.1";
    var block := [first] + headers + [""];
    ExtractPathOfRequestLine(p, "HTTP/1.1");
    assert first == GetMarker + p + " " + "HTTP/1.1";
    assert block[|block| - 1] == "";
    IgnoresLinesAfterBlank(block, tail);
    assert HeaderEnd(block) == |block|;
    assert LastGetIndex(block, |block| - 1) == Some(0) by {
      assert forall j :: 0 < j < |block| - 1 ==> block[j] == headers[j - 1];
      LastGetFromStart(block, |block| - 1);
    }
    assert !Contains(block[|block| - 1], GetMarker);
    assert LastGetIndex(block, |block|) == Some(0);
    assert RequestPath(block) == ExtractPath(first);
  }

  /** A "GET " line at index 0 followed by lines without it is the last one. */
  lemma {:induction false} LastGetFromStart(lines: seq<string>, n: nat)
    requires 0 < n <= |lines|
    requires Contains(lines[0], GetMarker)
    requires forall j :: 0 < j < n ==> !Contains(lines[j], GetMarker)
    ensures LastGetIndex(lines, n) == Some(0)
  {
    if n > 1 {
      LastGetFromStart(lines, n - 1);
    }
  }
}
