/**
 * The `/logs` route of app.js: the access log, trimmed, split on "\n", cut
 * to its last 100 lines and joined again with "\n". Reading the file is a
 * parameter: `None` when the read fails.
 */
module LogTail {
  import opened Common

  const MaxLines := 100

  predicate NoNewline(s: string) {
    forall i :: 0 <= i < |s| ==> s[i] != '\n'
  }

  /** `s.split("\n")`: the pieces between the newlines, at least one, none holding a newline. */
  function Split(s: string): (r: seq<string>)
    ensures |r| >= 1
    ensures forall i :: 0 <= i < |r| ==> NoNewline(r[i])
  {
    if s == [] then [""]
    else
      var rest := Split(s[1..]);
      if s[0] == '\n' then [""] + rest
      else [[s[0]] + rest[0]] + rest[1..]
  }

  /** `lines.join("\n")`. */
  function Join(lines: seq<string>): (r: string)
    requires |lines| >= 1
  {
    if |lines| == 1 then lines[0] else lines[0] + "\n" + Join(lines[1..])
  }

  /** Joining the pieces gives back the string that was split. */
  lemma {:induction false} JoinSplit(s: string)
    ensures Join(Split(s)) == s
  {
    if s != [] {
      JoinSplit(s[1..]);
      var rest := Split(s[1..]);
      if s[0] != '\n' {
        if |rest| == 1 {
          assert Join(Split(s)) == [s[0]] + rest[0];
        } else {
          assert Split(s)[1..] == rest[1..];
          assert Join(rest) == rest[0] + "\n" + Join(rest[1..]);
        }
      } else {
        assert Split(s)[1..] == rest;
      }
      assert s == [s[0]] + s[1..];
    }
  }

  /** Splitting lines that hold no newline, once joined, gives back the same lines. */
  lemma {:induction false} SplitJoin(lines: seq<string>)
    requires |lines| >= 1
    requires forall i :: 0 <= i < |lines| ==> NoNewline(lines[i])
    ensures Split(Join(lines)) == lines
  {
    if |lines| == 1 {
      SplitNoNewline(lines[0]);
    } else {
      SplitJoin(lines[1..]);
      SplitAtNewline(lines[0], Join(lines[1..]));
    }
  }

  lemma {:induction false} SplitNoNewline(s: string)
    requires NoNewline(s)
    ensures Split(s) == [s]
  {
    if s != [] {
      SplitNoNewline(s[1..]);
      assert s == [s[0]] + s[1..];
    }
  }

  /** A piece without newlines, a newline, then the rest: the piece comes first, then the rest's pieces. */
  lemma {:induction false} SplitAtNewline(a: string, b: string)
    requires NoNewline(a)
    ensures Split(a + "\n" + b) == [a] + Split(b)
    decreases |a|
  {
    var s := a + "\n" + b;
    if a == [] {
      assert s[0] == '\n' && s[1..] == b;
    } else {
      assert s[1..] == a[1..] + "\n" + b;
      SplitAtNewline(a[1..], b);
      assert [a[0]] + a[1..] == a;
    }
  }

  /** Joining a suffix of the lines gives a suffix of the joined text. */
  lemma {:induction false} JoinSuffix(lines: seq<string>, k: nat)
    requires k < |lines|
    ensures var all, tail := Join(lines), Join(lines[k..]);
      |tail| <= |all| && tail == all[|all| - |tail|..]
  {
    if k > 0 {
      JoinSuffix(lines[1..], k - 1);
      assert lines[1..][k - 1..] == lines[k..];
    }
  }

  /** The last `MaxLines` lines, or all of them when there are fewer: `lines.slice(-100)`. */
  function LastLines(lines: seq<string>): (r: seq<string>)
    requires |lines| >= 1
    ensures 1 <= |r| <= MaxLines && |r| <= |lines| && r == lines[|lines| - |r|..]
    ensures |lines| <= MaxLines ==> r == lines
  {
    if |lines| <= MaxLines then lines else lines[|lines| - MaxLines..]
  }

  /** The last lines, joined, split back into themselves and end the joined text of all the lines. */
  lemma LastLinesJoin(lines: seq<string>)
    requires |lines| >= 1
    requires forall i :: 0 <= i < |lines| ==> NoNewline(lines[i])
    ensures Split(Join(LastLines(lines))) == LastLines(lines)
    ensures var all, tail := Join(lines), Join(LastLines(lines));
      |tail| <= |all| && tail == all[|all| - |tail|..]
  {
    var last := LastLines(lines);
    assert forall i :: 0 <= i < |last| ==> last[i] == lines[|lines| - |last| + i];
    SplitJoin(last);
    JoinSuffix(lines, |lines| - |last|);
  }

  /**
   * The text the route sends: the last lines of the trimmed log. It has at
   * most 100 lines, it is the end of the trimmed log, and it is the whole
   * trimmed log when that has no more than 100 lines.
   */
  function Tail(data: string): (r: string)
    ensures |Split(r)| <= MaxLines
    ensures Split(r) == LastLines(Split(Trim(data)))
    ensures |r| <= |Trim(data)| && r == Trim(data)[|Trim(data)| - |r|..]
    ensures |Split(Trim(data))| <= MaxLines ==> r == Trim(data)
  {
    var t := Trim(data);
    LastLinesJoin(Split(t));
    JoinSplit(t);
    Join(LastLines(Split(t)))
  }

  /** The `/logs` answer: the tail, or a server error when the log cannot be read. */
  function LogsRoute(read: Option<string>): (r: Outcome<string>)
    ensures read.None? <==> r == Fail(ServerError, "Error reading log file")
    ensures read.Some? ==> r == Ok(Tail(read.value)) && |Split(r.value)| <= MaxLines
  {
    if read.None? then Fail(ServerError, "Error reading log file") else Ok(Tail(read.value))
  }
}
