/** Splitting a message into lines (`split` in sipwsUtil.cpp) and joining lines with CRLF. */
module Lines {
  import opened Wrappers

  const CRLF := "\r\n"

  predicate IsBreak(c: char) {
    c == '\r' || c == '\n'
  }

  predicate BreakFree(s: string) {
    forall i :: 0 <= i < |s| ==> !IsBreak(s[i])
  }

  /** find_first_of over either character of the delimiter. */
  function NextBreak(s: string, start: nat): (r: int)
    ensures r == -1 ==> forall i :: start <= i < |s| ==> !IsBreak(s[i])
    ensures r != -1 ==> start <= r < |s| && IsBreak(s[r]) && forall i :: start <= i < r ==> !IsBreak(s[i])
    decreases |s| - start
  {
    if start >= |s| then -1 else if IsBreak(s[start]) then start else NextBreak(s, start + 1)
  }

  /** The lines from position `start` on.  Either break character ends a line and two characters are
      always skipped.  When that steps over the end, the next line would have length -1, and building it
      throws. */
  function SplitFrom(s: string, start: nat): (r: Outcome<seq<string>>)
    requires start <= |s| + 1
    ensures r.Returned? ==> r.value != []
    decreases |s| + 1 - start
  {
    var pos := NextBreak(s, start);
    if pos == -1 then
      if start > |s| then Threw else Returned([s[start..]])
    else
      var rest :- SplitFrom(s, pos + 2);
      Returned([s[start..pos]] + rest)
  }

  function Split(s: string): Outcome<seq<string>> {
    SplitFrom(s, 0)
  }

  function Join(lines: seq<string>): string
    requires lines != []
  {
    if |lines| == 1 then lines[0] else lines[0] + CRLF + Join(lines[1..])
  }

  /** The index loop of the source. */
  method SplitLines(s: string) returns (result: Outcome<seq<string>>)
    ensures result == Split(s)
  {
    var lines: seq<string> := [];
    var lastPos := 0;
    while true
      invariant 0 <= lastPos <= |s| + 1
      invariant Split(s).Threw? <==> SplitFrom(s, lastPos).Threw?
      invariant Split(s).Returned? ==> Split(s).value == lines + SplitFrom(s, lastPos).value
      decreases |s| + 1 - lastPos
    {
      var pos := NextBreak(s, lastPos);
      if pos == -1 {
        if lastPos > |s| {
          return Threw;
        }
        return Returned(lines + [s[lastPos..]]);
      }
      lines := lines + [s[lastPos..pos]];
      lastPos := pos + 2;
    }
  }

  // ---------------------------------------------------------------- when splitting throws

  /** How many break characters the text ends in. */
  function BreakTail(s: string): (r: nat)
    ensures r <= |s| && (forall i :: |s| - r <= i < |s| ==> IsBreak(s[i])) && (r < |s| ==> !IsBreak(s[|s| - r - 1]))
  {
    if s != "" && IsBreak(s[|s| - 1]) then 1 + BreakTail(s[..|s| - 1]) else 0
  }

  /** Splitting throws exactly on the texts that end in an odd number of break characters, whichever they are:
      the loop skips two at a time and steps over the end. */
  lemma SplitThrows(s: string)
    ensures Split(s).Threw? <==> BreakTail(s) % 2 == 1
  {
    SplitThrowsFrom(s, 0);
  }

  lemma SplitTurn(s: string, start: nat)
    requires start <= |s| + 1
    ensures var pos := NextBreak(s, start);
            if pos == -1 then SplitFrom(s, start).Threw? <==> start > |s|
            else SplitFrom(s, start).Threw? <==> SplitFrom(s, pos + 2).Threw?
  {
    hide NextBreak;
  }

  lemma {:induction false} SplitThrowsFrom(s: string, start: nat)
    requires start <= |s| + 1
    ensures SplitFrom(s, start).Threw? <==> (if BreakTail(s) <= |s| - start then BreakTail(s) else |s| - start) % 2 == 1
    decreases |s| + 1 - start
  {
    hide BreakTail, SplitFrom;
    var pos, tail := NextBreak(s, start), BreakTail(s);
    SplitTurn(s, start);
    if pos == -1 {
      if start < |s| {
        assert !IsBreak(s[|s| - 1]);
      }
    } else {
      SplitThrowsFrom(s, pos + 2);
      if pos < |s| - tail {
        assert !IsBreak(s[|s| - tail - 1]);
        assert pos + 2 <= |s| - tail;
      } else if start < |s| - tail {
        assert IsBreak(s[|s| - tail]);
        assert pos == |s| - tail;
      } else {
        assert IsBreak(s[start]);
      }
    }
  }

  /** A lone trailing break, or any odd run of them, throws; an even run does not, paired or not. */
  lemma SplitExamples()
    ensures Split("a\r\n\r").Threw?
    ensures Split("a\r\n") == Returned(["a", ""]) && Split("a\n\n") == Returned(["a", ""])
  {
    hide NextBreak;
    var odd := "a\r\n\r";
    assert odd[0] == 'a' && odd[1] == '\r' && odd[2] == '\n' && odd[3] == '\r';
    SplitThrows(odd);
    TwoBreaks("a\r\n");
    TwoBreaks("a\n\n");
  }

  lemma TwoBreaks(s: string)
    requires |s| == 3 && s[0] == 'a' && IsBreak(s[1]) && IsBreak(s[2])
    ensures Split(s) == Returned(["a", ""])
  {
    assert s[3..] == "" && SplitFrom(s, 3) == Returned([""]);
    assert !IsBreak(s[0]) && NextBreak(s, 0) == 1 && s[0..1] == "a";
    assert Split(s) == Returned(["a"] + [""]);
    assert ["a"] + [""] == ["a", ""];
  }

  /** Splitting undoes joining, for any non-empty list of lines without break characters. */
  lemma SplitJoin(lines: seq<string>)
    requires lines != []
    requires forall i :: 0 <= i < |lines| ==> BreakFree(lines[i])
    ensures Split(Join(lines)) == Returned(lines)
  {
    SplitJoinFrom(Join(lines), 0, lines);
  }

  lemma {:induction false} SplitJoinFrom(s: string, start: nat, lines: seq<string>)
    requires lines != [] && start <= |s| && s[start..] == Join(lines)
    requires forall i :: 0 <= i < |lines| ==> BreakFree(lines[i])
    ensures SplitFrom(s, start) == Returned(lines)
    decreases |lines|
  {
    var line := lines[0];
    assert BreakFree(line);
    if |lines| == 1 {
      LastLine(s, start);
      assert lines == [line];
    } else {
      var next := start + |line| + 2;
      FirstLine(s, start, line, Join(lines[1..]));
      SplitJoinFrom(s, next, lines[1..]);
      assert SplitFrom(s, start) == Returned([line] + lines[1..]);
      assert lines == [line] + lines[1..];
    }
  }

  lemma LastLine(s: string, start: nat)
    requires start <= |s| && BreakFree(s[start..])
    ensures NextBreak(s, start) == -1
  {
    assert forall i :: start <= i < |s| ==> s[i] == s[start..][i - start];
  }

  lemma FirstLine(s: string, start: nat, line: string, tail: string)
    requires start <= |s| && s[start..] == line + CRLF + tail && BreakFree(line)
    ensures NextBreak(s, start) == start + |line|
    ensures start + |line| + 2 <= |s| && s[start..start + |line|] == line && s[start + |line| + 2..] == tail
  {
    var n, rest := start + |line|, s[start..];
    assert forall i :: start <= i < n ==> s[i] == rest[i - start] == line[i - start];
    assert s[n] == rest[|line|] == CRLF[0];
    assert s[n + 2..] == rest[|line| + 2..] == tail;
  }

  predicate PairedAt(s: string, start: nat, i: nat)
    requires i < |s|
  {
    && (s[i] == '\r' ==> i + 1 < |s| && s[i + 1] == '\n')
    && (s[i] == '\n' ==> i > start && s[i - 1] == '\r')
  }

  /** From `start` on, CR and LF occur only as the pair CR LF. */
  predicate Paired(s: string, start: nat) {
    forall i :: start <= i < |s| ==> PairedAt(s, start, i)
  }

  /** Joining undoes splitting exactly on the texts whose break characters come in CR LF pairs. */
  lemma JoinSplit(s: string)
    ensures (Split(s).Returned? && Join(Split(s).value) == s) <==> Paired(s, 0)
  {
    JoinSplitFrom(s, 0);
    assert s[0..] == s;
  }

  lemma {:induction false} JoinSplitFrom(s: string, start: nat)
    requires start <= |s|
    ensures (SplitFrom(s, start).Returned? && Join(SplitFrom(s, start).value) == s[start..]) <==> Paired(s, start)
    decreases |s| - start
  {
    hide Join, NextBreak;
    var pos := NextBreak(s, start);
    if pos == -1 {
      JoinOne(s[start..]);
    } else if pos + 2 > |s| {
      assert !PairedAt(s, start, pos);
    } else {
      JoinSplitFrom(s, pos + 2);
      PairedStep(s, start, pos);
      if SplitFrom(s, pos + 2).Returned? {
        JoinStep(s, start, pos, SplitFrom(s, pos + 2).value);
      }
    }
  }

  lemma JoinOne(line: string)
    ensures Join([line]) == line
  {
  }

  lemma JoinStep(s: string, start: nat, pos: nat, rest: seq<string>)
    requires start <= pos && pos + 2 <= |s| && rest != []
    ensures Join([s[start..pos]] + rest) == s[start..] <==>
            s[pos] == '\r' && s[pos + 1] == '\n' && Join(rest) == s[pos + 2..]
  {
    var line, tail := s[start..pos], Join(rest);
    assert ([line] + rest)[1..] == rest;
    var joined := line + CRLF + tail;
    assert s[start..] == line + s[pos..pos + 2] + s[pos + 2..];
    assert joined[pos - start] == '\r' && joined[pos - start + 1] == '\n' && joined[pos - start + 2..] == tail;
    assert s[start..][pos - start + 2..] == s[pos + 2..];
    if s[pos] == '\r' && s[pos + 1] == '\n' {
      assert s[pos..pos + 2] == CRLF;
    }
  }

  lemma PairedStep(s: string, start: nat, pos: nat)
    requires start <= pos && pos + 2 <= |s| && IsBreak(s[pos])
    requires forall i :: start <= i < pos ==> !IsBreak(s[i])
    ensures Paired(s, start) <==> s[pos] == '\r' && s[pos + 1] == '\n' && Paired(s, pos + 2)
  {
    var next := pos + 2;
    if Paired(s, start) {
      assert PairedAt(s, start, pos);
      assert pos > start ==> !IsBreak(s[pos - 1]);
      forall i | next <= i < |s| ensures PairedAt(s, next, i) {
        assert PairedAt(s, start, i);
      }
    }
    if s[pos] == '\r' && s[pos + 1] == '\n' && Paired(s, next) {
      forall i | start <= i < |s| ensures PairedAt(s, start, i) {
        if i >= next {
          assert PairedAt(s, next, i);
        } else if i < pos {
          assert !IsBreak(s[i]);
        }
      }
    }
  }
}
