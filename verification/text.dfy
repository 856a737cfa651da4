/**
 * String helpers with the meaning of the Java library calls the web worker
 * uses: `String.contains`, the index-of-first-space scan, and the line
 * structure seen by a reader that splits text at newline characters.
 */
module WebText {

  /** `p` occurs in `s` starting at index `i`. */
  ghost predicate OccursAt(s: string, p: string, i: nat)
  {
    i + |p| <= |s| && s[i..i + |p|] == p
  }

  /**
   * Java's `s.contains(p)`. A string only contains strings no longer than
   * itself, which is what makes `line.substring(4)` safe after
   * `line.contains("GET ")`.
   */
  function Contains(s: string, p: string): (b: bool)
    ensures b ==> |p| <= |s|
    ensures |p| <= |s| && s[..|p|] == p ==> b
    decreases |s|
  {
    if |s| < |p| then false
    else if s[..|p|] == p then true
    else Contains(s[1..], p)
  }

  /** `Contains` holds exactly when the pattern occurs at some index. */
  lemma {:induction false} ContainsIff(s: string, p: string)
    ensures Contains(s, p) <==> exists i: nat :: OccursAt(s, p, i)
    decreases |s|
  {
    if |s| < |p| {
      forall i: nat ensures !OccursAt(s, p, i) { }
    } else if s[..|p|] == p {
      assert OccursAt(s, p, 0);
    } else {
      ContainsIff(s[1..], p);
      if Contains(s[1..], p) {
        var i: nat :| OccursAt(s[1..], p, i);
        OccursAtShift(s, p, i + 1);
      } else {
        forall i: nat ensures !OccursAt(s, p, i) {
          if 0 < i && i + |p| <= |s| {
            OccursAtShift(s, p, i);
          }
        }
      }
    }
  }

  /** Occurrences past the first character are the occurrences in the tail. */
  lemma OccursAtShift(s: string, p: string, i: nat)
    requires 0 < i && i + |p| <= |s|
    ensures OccursAt(s, p, i) <==> OccursAt(s[1..], p, i - 1)
  {
    assert s[1..][i - 1..i - 1 + |p|] == s[i..i + |p|];
  }

  /** A string that occurs at some index is contained. */
  lemma ContainsAt(s: string, p: string, i: nat)
    requires OccursAt(s, p, i)
    ensures Contains(s, p)
  {
    ContainsIff(s, p);
  }

  /** Containment survives adding text on either side. */
  lemma ContainsInContext(a: string, s: string, b: string, p: string)
    requires Contains(s, p)
    ensures Contains(a + s + b, p)
  {
    ContainsIff(s, p);
    var i: nat :| OccursAt(s, p, i);
    assert (a + s + b)[|a| + i..|a| + i + |p|] == s[i..i + |p|];
    ContainsAt(a + s + b, p, |a| + i);
  }

  /** Text without newline characters: what `BufferedReader.readLine` returns. */
  predicate NoNewline(s: string)
  {
    '\n' !in s
  }

  /** Joining two texts without newlines gives a text without newlines. */
  lemma NoNewlineConcat(a: string, b: string)
    requires NoNewline(a) && NoNewline(b)
    ensures NoNewline(a + b)
  {
    forall i | 0 <= i < |a + b| ensures (a + b)[i] != '\n' {
      if i >= |a| {
        assert (a + b)[i] == b[i - |a|];
      }
    }
  }

  /**
   * The text before the first space of `s`, or all of `s` when it has no
   * space: the result of the path-truncating loop of the request reader.
   */
  function TakeUntilSpace(s: string): (r: string)
    ensures r <= s
    ensures forall i :: 0 <= i < |r| ==> r[i] != ' '
    ensures |r| < |s| ==> s[|r|] == ' '
  {
    if |s| == 0 || s[0] == ' ' then "" else [s[0]] + TakeUntilSpace(s[1..])
  }

  /** The three properties of `TakeUntilSpace` determine its result. */
  lemma TakeUntilSpaceUnique(s: string, r: string)
    requires r <= s
    requires forall i :: 0 <= i < |r| ==> r[i] != ' '
    requires |r| < |s| ==> s[|r|] == ' '
    ensures r == TakeUntilSpace(s)
  {
    var t := TakeUntilSpace(s);
    assert |r| == |t|;
  }

  /** Index of the first newline of `s`, when there is one. */
  function IndexOfNewline(s: string): (r: nat)
    requires !NoNewline(s)
    ensures r < |s| && s[r] == '\n'
    ensures NoNewline(s[..r])
  {
    if s[0] == '\n' then 0
    else
      assert s[1..][..IndexOfNewline(s[1..])] == s[..IndexOfNewline(s[1..]) + 1][1..];
      1 + IndexOfNewline(s[1..])
  }

  /**
   * The lines a reader sees when it splits `s` at every newline; text after
   * the last newline (possibly empty) is the final element.
   */
  function SplitLines(s: string): (ls: seq<string>)
    ensures |ls| > 0
    decreases |s|
  {
    if NoNewline(s) then [s]
    else
      var i := IndexOfNewline(s);
      [s[..i]] + SplitLines(s[i + 1..])
  }

  /** Splitting a line followed by a newline peels that line off the front. */
  lemma SplitLinesCons(a: string, b: string)
    requires NoNewline(a)
    ensures SplitLines(a + "\n" + b) == [a] + SplitLines(b)
  {
    var s := a + "\n" + b;
    assert s[|a|] == '\n';
    var i := IndexOfNewline(s);
    assert i == |a|;
    assert s[..i] == a;
    assert s[i + 1..] == b;
  }

  /** Lines written one after another, each followed by a newline. */
  function JoinLines(ls: seq<string>): (s: string)
    ensures |s| >= |ls|
  {
    if |ls| == 0 then "" else ls[0] + "\n" + JoinLines(ls[1..])
  }

  /** Re-attaching the head of a non-empty sequence in front of an append. */
  lemma HeadTailAppend<T>(xs: seq<T>, ys: seq<T>)
    requires |xs| > 0
    ensures [xs[0]] + (xs[1..] + ys) == xs + ys
  {
  }

  /** Splitting newline-terminated lines gives the lines back, then whatever follows. */
  lemma {:induction false} SplitJoinLines(ls: seq<string>, tail: string)
    requires forall k :: 0 <= k < |ls| ==> NoNewline(ls[k])
    ensures SplitLines(JoinLines(ls) + tail) == ls + SplitLines(tail)
  {
    if |ls| > 0 {
      var rest := JoinLines(ls[1..]) + tail;
      assert JoinLines(ls) + tail == ls[0] + "\n" + rest;
      SplitLinesCons(ls[0], rest);
      SplitJoinLines(ls[1..], tail);
      assert SplitLines(JoinLines(ls) + tail) == [ls[0]] + (ls[1..] + SplitLines(tail));
      HeadTailAppend(ls, SplitLines(tail));
    } else {
      assert JoinLines(ls) + tail == tail;
      assert ls + SplitLines(tail) == SplitLines(tail);
    }
  }

  /** Newline-terminated lines of a concatenation are those of each part. */
  lemma {:induction false} JoinLinesAppend(a: seq<string>, b: seq<string>)
    ensures JoinLines(a + b) == JoinLines(a) + JoinLines(b)
  {
    if |a| == 0 {
      assert a + b == b;
    } else {
      assert (a + b)[1..] == a[1..] + b;
      JoinLinesAppend(a[1..], b);
    }
  }
}
