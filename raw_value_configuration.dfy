/** A configuration holding a literal value (RawValueConfiguration.java):
    always set, read as the value itself, and split into lines the way
    `java.util.Scanner.nextLine` splits text. */
module RawValueConfigurations {
  import opened Results
  import opened Configurations

  type RawValueConfiguration = c: Configuration | c.RawValue? witness RawValue("")

  /** `read()`: the value itself, which is also what `get()` answers, in every environment. */
  function Read(c: RawValueConfiguration): (r: string)
    ensures forall e :: IsSet(c, e) && Get(c, e) == Some(r)
  {
    c.value
  }

  /** The line separators `Scanner` recognises: "\r\n" or any one of these. */
  predicate IsLineTerminator(ch: char) {
    ch == '\n' || ch == '\r' || ch == '\U{2028}' || ch == '\U{2029}' || ch == '\U{0085}'
  }

  predicate NoTerminator(s: string) {
    forall i :: 0 <= i < |s| ==> !IsLineTerminator(s[i])
  }

  /** Where the first line of `s` ends: the first terminator, or the end of `s`. */
  function LineEnd(s: string): (k: nat)
    ensures k <= |s| && NoTerminator(s[..k])
    ensures k < |s| ==> IsLineTerminator(s[k])
  {
    if s == [] || IsLineTerminator(s[0]) then 0
    else
      var k := LineEnd(s[1..]);
      assert s[..k + 1] == [s[0]] + s[1..][..k];
      k + 1
  }

  /** The first line ends at the first terminator and nowhere else. */
  lemma {:induction false} LineEndUnique(s: string, k: nat)
    requires k <= |s| && NoTerminator(s[..k])
    requires k < |s| ==> IsLineTerminator(s[k])
    ensures LineEnd(s) == k
  {
    if s == [] {
    } else if !IsLineTerminator(s[0]) {
      assert k != 0;
      var t := s[1..];
      assert t[..k - 1] == s[..k][1..];
      LineEndUnique(t, k - 1);
    }
  }

  /** Where the line that ends at `k` lets the next one start: past the
      terminator at `k`, where "\r\n" counts as one terminator of two
      characters; at the end of the text, nowhere further. */
  function NextStart(s: string, k: nat): (next: nat)
    requires k <= |s|
    ensures k < next <= |s| || next == k == |s|
    ensures k + 2 <= |s| && s[k..k + 2] == "\r\n" ==> next == k + 2
    ensures k < |s| && !(k + 2 <= |s| && s[k..k + 2] == "\r\n") ==> next == k + 1
    ensures k == |s| ==> next == k
  {
    if k == |s| then k
    else if s[k] == '\r' && k + 1 < |s| && s[k + 1] == '\n' then k + 2
    else k + 1
  }

  /** The lines `Scanner` yields one by one while `hasNextLine()` holds. */
  function Lines(s: string): (r: seq<string>)
    ensures forall i :: 0 <= i < |r| ==> NoTerminator(r[i])
    ensures s == [] <==> r == []
    decreases |s|
  {
    if s == [] then []
    else
      var k := LineEnd(s);
      [s[..k]] + Lines(s[NextStart(s, k)..])
  }

  /** `Scanner.nextLine()` from position `pos`: the characters up to the next
      terminator, and the position after that terminator. */
  method NextLine(s: string, pos: nat) returns (line: string, next: nat)
    requires pos < |s|
    ensures pos < next <= |s|
    ensures Lines(s[pos..]) == [line] + Lines(s[next..])
  {
    var end := pos;
    while end < |s| && !IsLineTerminator(s[end])
      invariant pos <= end <= |s|
      invariant forall i :: pos <= i < end ==> !IsLineTerminator(s[i])
    {
      end := end + 1;
    }
    next := end;
    if end < |s| {
      if s[end] == '\r' && end + 1 < |s| && s[end + 1] == '\n' {
        next := end + 2;
      } else {
        next := end + 1;
      }
    }
    FirstLine(s, pos, end, next);
    line := s[pos..end];
  }

  /** `readLines()`: reads the value line by line while a line is left. */
  method ReadLines(c: RawValueConfiguration) returns (lines: seq<string>)
    ensures lines == Lines(Read(c))
  {
    var s := c.value;
    lines := [];
    var pos := 0;
    assert s[pos..] == s;
    while pos < |s|
      invariant 0 <= pos <= |s|
      invariant lines + Lines(s[pos..]) == Lines(s)
      decreases |s| - pos
    {
      var line, next := NextLine(s, pos);
      assert (lines + [line]) + Lines(s[next..]) == lines + Lines(s[pos..]);
      lines := lines + [line];
      pos := next;
    }
  }

  /** One step of `readLines()`: the line from `pos` to the first terminator
      at `end`, then the lines from where the next one starts. */
  lemma FirstLine(s: string, pos: nat, end: nat, next: nat)
    requires pos < end <= |s| || pos == end < |s|
    requires forall i :: pos <= i < end ==> !IsLineTerminator(s[i])
    requires end < |s| ==> IsLineTerminator(s[end])
    requires next == NextStart(s, end)
    ensures Lines(s[pos..]) == [s[pos..end]] + Lines(s[next..])
  {
    var rest := s[pos..];
    var k := end - pos;
    assert rest[..k] == s[pos..end];
    assert NoTerminator(rest[..k]) by {
      forall i | 0 <= i < k ensures !IsLineTerminator(rest[..k][i]) {
        assert rest[..k][i] == s[pos + i];
      }
    }
    LineEndUnique(rest, k);
    NextStartShift(s, pos, end);
    LinesFrom(s, pos, end, next);
  }

  /** The lines of `s[pos..]` when its first line ends at `end` and the next
      one starts at `next`. */
  lemma LinesFrom(s: string, pos: nat, end: nat, next: nat)
    requires pos <= end <= next <= |s| && pos < |s|
    requires LineEnd(s[pos..]) == end - pos && NextStart(s[pos..], end - pos) == next - pos
    ensures Lines(s[pos..]) == [s[pos..end]] + Lines(s[next..])
  {
    SlicesOfSuffix(s, pos, end, next);
    LinesFirst(s[pos..], end - pos, next - pos, s[pos..end], s[next..]);
  }

  lemma SlicesOfSuffix(s: string, pos: nat, end: nat, next: nat)
    requires pos <= end <= next <= |s|
    ensures s[pos..][..end - pos] == s[pos..end]
    ensures s[pos..][next - pos..] == s[next..]
  {
  }

  /** The lines of non-empty text: the first, `t[..k]`, and those of `t[n..]`,
      where the next one starts. */
  lemma LinesFirst(t: string, k: nat, n: nat, first: string, others: string)
    requires t != [] && LineEnd(t) == k && NextStart(t, k) == n
    requires first == t[..k] && others == t[n..]
    ensures Lines(t) == [first] + Lines(others)
  {
  }

  /** Where the next line starts does not depend on the text before `pos`. */
  lemma NextStartShift(s: string, pos: nat, end: nat)
    requires pos <= end <= |s|
    ensures NextStart(s[pos..], end - pos) == NextStart(s, end) - pos
  {
    var rest := s[pos..];
    if end < |s| {
      assert rest[end - pos] == s[end];
      if end + 1 < |s| {
        assert rest[end - pos + 1] == s[end + 1];
      }
    }
  }

  /** Lines joined with "\n" after each one. */
  function Unlines(ls: seq<string>): string {
    if ls == [] then "" else ls[0] + "\n" + Unlines(ls[1..])
  }

  /** Splitting text written line by line gives back the same lines. */
  lemma {:induction false} LinesOfUnlines(ls: seq<string>)
    requires forall i :: 0 <= i < |ls| ==> NoTerminator(ls[i])
    ensures Lines(Unlines(ls)) == ls
  {
    if ls != [] {
      var s := Unlines(ls);
      var l := ls[0];
      SplitAtNewline(l, Unlines(ls[1..]));
      LineEndUnique(s, |l|);
      assert NextStart(s, |l|) == |l| + 1;
      LinesOfUnlines(ls[1..]);
    }
  }

  /** The pieces of `l + "\n" + t`. */
  lemma SplitAtNewline(l: string, t: string)
    ensures (l + "\n" + t)[..|l|] == l
    ensures (l + "\n" + t)[|l|] == '\n'
    ensures (l + "\n" + t)[|l| + 1..] == t
  {
  }

  /** A value without line separators is a single line; "a\r\nb" is two. */
  lemma LinesExamples(s: string)
    requires s != [] && NoTerminator(s)
    ensures Lines(s) == [s]
    ensures Lines("a\r\nb") == ["a", "b"]
  {
    assert s[..|s|] == s;
    LineEndUnique(s, |s|);
    LinesFirst(s, |s|, |s|, s, []);
    var t := "a\r\nb";
    assert t[..1] == "a";
    LineEndUnique(t, 1);
    assert t[3..] == "b";
    LinesFirst(t, 1, 3, "a", "b");
    assert "b"[..1] == "b";
    LineEndUnique("b", 1);
    LinesFirst("b", 1, 1, "b", []);
  }

  /** "\n\r" is two terminators, with an empty line between them, unlike "\r\n". */
  lemma LinesNewlineThenReturn()
    ensures Lines("a\n\rb") == ["a", "", "b"]
  {
    var t := "a\n\rb";
    assert t[..1] == "a";
    LineEndUnique(t, 1);
    assert t[2..] == "\rb";
    LinesFirst(t, 1, 2, "a", "\rb");
    var u := "\rb";
    assert u[..0] == "";
    LineEndUnique(u, 0);
    assert u[1..] == "b";
    LinesFirst(u, 0, 1, "", "b");
    assert "b"[..1] == "b";
    LineEndUnique("b", 1);
    LinesFirst("b", 1, 1, "b", []);
  }
}
