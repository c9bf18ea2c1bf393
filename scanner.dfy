/**
 * The scan loop of barcode.py: read zbarcam's output line by line until the
 * first ISBN line or until the stream ends.
 *
 * The output stream is a finite sequence of lines. Reading position i
 * yields lines[i], or "" once the sequence is exhausted, which is what
 * `readline` returns at end of file; an empty line can only be end of file,
 * so one inside the sequence also stops the loop.
 */
module Scanner {
  import opened Wrappers
  import opened IsbnMatch

  /** `subproc.stdout.readline()` for the i-th call on the stream `lines`. */
  function ReadLine(lines: seq<string>, i: nat): string {
    if i < |lines| then lines[i] else ""
  }

  /** The first k lines were read (none was end of file) and none matched. */
  predicate Skipped(lines: seq<string>, k: nat)
    requires k <= |lines|
  {
    forall j :: 0 <= j < k ==> lines[j] != "" && MatchLine(lines[j]).None?
  }

  /** The ISBN the scan loop stops at: that of the first matching line before end of file. */
  function FirstMatch(lines: seq<string>): (isbn: Option<string>)
    ensures isbn.Some? ==> exists k :: 0 <= k < |lines| && MatchLine(lines[k]) == isbn
  {
    if lines == [] || lines[0] == "" then None
    else if MatchLine(lines[0]).Some? then MatchLine(lines[0])
    else
      var rest := FirstMatch(lines[1..]);
      assert rest.Some? ==> exists k :: 1 <= k < |lines| && MatchLine(lines[k]) == rest by {
        if rest.Some? {
          var k :| 0 <= k < |lines[1..]| && MatchLine(lines[1..][k]) == rest;
          assert lines[k + 1] == lines[1..][k];
        }
      }
      rest
  }

  /**
   * The loop at lines 106-116: `read` is the number of lines taken from the
   * stream. On a match the last line read is the matching one and every one
   * before it failed to match; on end of file every line read failed to match.
   * Nothing after the matching line is read.
   */
  method Scan(lines: seq<string>) returns (isbn: Option<string>, read: nat)
    ensures read <= |lines|
    ensures isbn.Some? ==> 0 < read && MatchLine(lines[read - 1]) == isbn && Skipped(lines, read - 1)
    ensures isbn.None? ==> Skipped(lines, read) && (read == |lines| || lines[read] == "")
    ensures isbn == FirstMatch(lines)
  {
    isbn, read := None, 0;
    while true
      invariant read <= |lines|
      invariant Skipped(lines, read)
      invariant FirstMatch(lines) == FirstMatch(lines[read..])
      decreases |lines| - read
    {
      var line := ReadLine(lines, read);
      if line == "" {
        break;
      }
      assert lines[read..][1..] == lines[read + 1..];
      read := read + 1;
      var m := MatchLine(line);
      if m.Some? {
        isbn := m;
        break;
      }
    }
  }

  /**
   * Whatever FirstMatch yields comes from a line k that matches, and every
   * line before k was read and did not match.
   */
  lemma {:induction false} FirstMatchIsFirst(lines: seq<string>)
    requires FirstMatch(lines).Some?
    ensures exists k :: 0 <= k < |lines| && Skipped(lines, k) && MatchLine(lines[k]) == FirstMatch(lines)
  {
    assert lines != [] && lines[0] != "";
    if MatchLine(lines[0]).Some? {
      assert Skipped(lines, 0) && MatchLine(lines[0]) == FirstMatch(lines);
    } else {
      var tail := lines[1..];
      assert FirstMatch(lines) == FirstMatch(tail);
      FirstMatchIsFirst(tail);
      var k :| 0 <= k < |tail| && Skipped(tail, k) && MatchLine(tail[k]) == FirstMatch(tail);
      SkippedCons(lines, k);
      assert lines[k + 1] == tail[k];
    }
  }

  /** A skipped first line followed by `k` skipped lines is `k + 1` skipped lines. */
  lemma SkippedCons(lines: seq<string>, k: nat)
    requires k < |lines| && lines[0] != "" && MatchLine(lines[0]).None? && Skipped(lines[1..], k)
    ensures Skipped(lines, k + 1)
  {
    assert forall j :: 1 <= j < k + 1 ==> lines[j] == lines[1..][j - 1];
  }

  /** Conversely, a matching line reached without passing end of file is the one FirstMatch yields. */
  lemma {:induction false} FirstMatchAt(lines: seq<string>, k: nat)
    requires k < |lines| && Skipped(lines, k) && MatchLine(lines[k]).Some?
    ensures FirstMatch(lines) == MatchLine(lines[k])
  {
    if k > 0 {
      assert lines[0] != "" && MatchLine(lines[0]).None?;
      assert Skipped(lines[1..], k - 1) && lines[1..][k - 1] == lines[k];
      FirstMatchAt(lines[1..], k - 1);
    }
  }

  /** A stream with no matching line ends the scan with no ISBN. */
  lemma {:induction false} NoMatchingLine(lines: seq<string>)
    requires forall k :: 0 <= k < |lines| ==> MatchLine(lines[k]).None?
    ensures FirstMatch(lines) == None
  {
    if lines != [] && lines[0] != "" {
      assert forall k :: 0 <= k < |lines[1..]| ==> lines[1..][k] == lines[k + 1];
      NoMatchingLine(lines[1..]);
    }
  }

  /** Once a prefix of the stream holds a match, what follows it is never looked at. */
  lemma {:induction false} LaterLinesIgnored(prefix: seq<string>, rest: seq<string>)
    requires FirstMatch(prefix).Some?
    ensures FirstMatch(prefix + rest) == FirstMatch(prefix)
  {
    assert (prefix + rest)[0] == prefix[0];
    if MatchLine(prefix[0]).None? {
      assert (prefix + rest)[1..] == prefix[1..] + rest;
      LaterLinesIgnored(prefix[1..], rest);
    }
  }

  /** Nothing after end of file is read. */
  lemma {:induction false} EndOfFileStops(prefix: seq<string>, rest: seq<string>)
    ensures FirstMatch(prefix + [""] + rest) == FirstMatch(prefix)
  {
    if prefix == [] {
    } else {
      assert (prefix + [""] + rest)[0] == prefix[0];
      assert (prefix + [""] + rest)[1..] == prefix[1..] + [""] + rest;
      if prefix[0] != "" && MatchLine(prefix[0]).None? {
        EndOfFileStops(prefix[1..], rest);
      }
    }
  }

  /**
   * Status lines that do not match, then a report line: the scan stops at
   * the report line with its ISBN, whatever follows.
   */
  lemma {:induction false} StopsAtReportLine(noise: seq<string>, report: string, rest: seq<string>)
    requires forall k :: 0 <= k < |noise| ==> noise[k] != "" && MatchLine(noise[k]).None?
    requires MatchLine(report).Some?
    ensures FirstMatch(noise + [report] + rest) == MatchLine(report)
  {
    var lines := noise + [report] + rest;
    if noise == [] {
      assert lines[0] == report;
    } else {
      assert lines[0] == noise[0];
      assert lines[1..] == noise[1..] + [report] + rest;
      StopsAtReportLine(noise[1..], report, rest);
    }
  }
}
