/**
 The specification of the newline-delimited JSON scan: the text of a file, cut at its newlines,
 with surrounding whitespace trimmed from each line and blank lines dropped. A file is a string
 of one-byte characters.
 */
module TextLines {
  import opened Basics

  predicate IsSpace(c: char) {
    c == ' ' || c == '\t' || c == '\n' || c == '\U{0B}' || c == '\U{0C}' || c == '\r'
  }

  predicate HasNewline(s: string) {
    exists i :: 0 <= i < |s| && s[i] == '\n'
  }

  predicate Blank(s: string) {
    forall i :: 0 <= i < |s| ==> IsSpace(s[i])
  }

  /** Number of whitespace characters a text starts with. */
  function Leading(s: string): (k: nat)
    ensures k <= |s| && (k < |s| ==> !IsSpace(s[k]))
    ensures forall i :: 0 <= i < k ==> IsSpace(s[i])
  {
    if s == "" || !IsSpace(s[0]) then 0 else 1 + Leading(s[1..])
  }

  /** Length of a text without the whitespace it ends with. */
  function Trailing(s: string): (k: nat)
    ensures k <= |s| && (k > 0 ==> !IsSpace(s[k - 1]))
    ensures forall i :: k <= i < |s| ==> IsSpace(s[i])
  {
    if s == "" || !IsSpace(s[|s| - 1]) then |s| else Trailing(s[..|s| - 1])
  }

  function TrimLeft(s: string): string {
    s[Leading(s)..]
  }

  function Trim(s: string): string {
    TrimLeft(s)[..Trailing(TrimLeft(s))]
  }

  /** Number of characters before the first newline (all of them if there is none). */
  function LineLength(s: string): (n: nat)
    ensures n <= |s| && (n < |s| ==> s[n] == '\n')
    ensures forall i :: 0 <= i < n ==> s[i] != '\n'
  {
    if s == "" || s[0] == '\n' then 0 else 1 + LineLength(s[1..])
  }

  /** Number of characters up to and including the last newline (none if there is none). */
  function Cut(s: string): (k: nat)
    ensures k <= |s| && (k > 0 ==> s[k - 1] == '\n')
    ensures forall i :: k <= i < |s| ==> s[i] != '\n'
  {
    if s == "" || s[|s| - 1] == '\n' then |s| else Cut(s[..|s| - 1])
  }

  /** The text of one line as it is handed on: trimmed, and nothing at all if it is blank. */
  function Emit(line: string): seq<string> {
    if Trim(line) == "" then [] else [Trim(line)]
  }

  /** The non-blank lines of a text, trimmed, in order. */
  function Lines(s: string): seq<string>
    decreases |s|
  {
    var n := LineLength(s);
    Emit(s[..n]) + if n == |s| then [] else Lines(s[n + 1..])
  }

  /** Everything after the last newline. */
  function Tail(s: string): string {
    s[Cut(s)..]
  }

  /** The line that is cut off at the end of a text, from its first character that is not whitespace. */
  function Pending(s: string): string {
    TrimLeft(Tail(s))
  }

  /** The lines that are ended by a newline. */
  function Complete(s: string): seq<string> {
    Lines(s[..Cut(s)])
  }

  /** What a scan may emit from a buffer: its last line only if no more data follows. */
  function Parsed(s: string, isLast: bool): seq<string> {
    if isLast then Lines(s) else Complete(s)
  }

  // The numbers of the functions above, from what they say about the text.

  lemma {:induction false} LeadingIs(s: string, k: nat)
    requires k <= |s| && (k < |s| ==> !IsSpace(s[k]))
    requires forall i :: 0 <= i < k ==> IsSpace(s[i])
    ensures Leading(s) == k
    decreases k
  {
    hide IsSpace;
    if k > 0 {
      LeadingIs(s[1..], k - 1);
    }
  }

  lemma {:induction false} TrailingIs(s: string, k: nat)
    requires k <= |s| && (k > 0 ==> !IsSpace(s[k - 1]))
    requires forall i :: k <= i < |s| ==> IsSpace(s[i])
    ensures Trailing(s) == k
    decreases |s|
  {
    hide IsSpace;
    if k < |s| {
      TrailingIs(s[..|s| - 1], k);
    }
  }

  lemma {:induction false} LineLengthIs(s: string, n: nat)
    requires n <= |s| && (n < |s| ==> s[n] == '\n')
    requires forall i :: 0 <= i < n ==> s[i] != '\n'
    ensures LineLength(s) == n
    decreases n
  {
    if n > 0 {
      LineLengthIs(s[1..], n - 1);
    }
  }

  lemma {:induction false} CutIs(s: string, k: nat)
    requires k <= |s| && (k > 0 ==> s[k - 1] == '\n')
    requires forall i :: k <= i < |s| ==> s[i] != '\n'
    ensures Cut(s) == k
    decreases |s|
  {
    if k < |s| {
      CutIs(s[..|s| - 1], k);
    }
  }

  lemma AssocLine(a: string, b: string, c: string)
    ensures a + "\n" + b + "\n" + c == a + "\n" + (b + "\n" + c)
    ensures a + "\n" + b + c == a + "\n" + (b + c)
    ensures a + (b + "\n" + c) == a + b + "\n" + c
  {
  }

  lemma CutAt(s: string, k: nat)
    requires 0 < k <= |s| && s[k - 1] == '\n'
    ensures s == s[..k - 1] + "\n" + s[k..] && s[..k] == s[..k - 1] + "\n"
  {
  }

  lemma LinesNoNewline(s: string)
    requires !HasNewline(s)
    ensures Lines(s) == Emit(s)
  {
    assert s[..|s|] == s;
  }

  /** One line and its newline, taken off the front. */
  lemma LinesCons(line: string, s: string)
    requires !HasNewline(line)
    ensures Lines(line + "\n" + s) == Emit(line) + Lines(s)
  {
    hide Emit, LineLength;
    var z, n := line + "\n" + s, |line|;
    assert z[..n] == line && z[n + 1..] == s;
    assert forall i :: 0 <= i < n ==> z[i] == line[i];
    assert z[n] == '\n';
    LineLengthIs(z, n);
  }

  /** A text with a newline is its first line, the newline, and the rest. */
  lemma CutFirstLine(s: string) returns (line: string, rest: string)
    requires HasNewline(s)
    ensures s == line + "\n" + rest && !HasNewline(line)
  {
    var n := LineLength(s);
    line, rest := s[..n], s[n + 1..];
  }

  /** Cutting a text at one of its newlines cuts its lines. */
  lemma {:induction false} LinesSplit(a: string, b: string)
    ensures Lines(a + "\n" + b) == Lines(a) + Lines(b)
    decreases |a|
  {
    if HasNewline(a) {
      var line, rest := CutFirstLine(a);
      AssocLine(line, rest, b);
      LinesCons(line, rest);
      LinesCons(line, rest + "\n" + b);
      LinesSplit(rest, b);
      Regroup(Emit(line), Lines(rest), Lines(b));
    } else {
      LinesCons(a, b);
      LinesNoNewline(a);
    }
  }

  lemma TrimLeftSplit(w: string, s: string)
    requires Blank(w)
    ensures TrimLeft(w + s) == TrimLeft(s)
  {
    hide IsSpace;
    var k, z := Leading(s), w + s;
    forall i | 0 <= i < |w| + k ensures IsSpace(z[i]) {
      assert z[i] == if i < |w| then w[i] else s[i - |w|];
    }
    assert k < |s| ==> z[|w| + k] == s[k];
    LeadingIs(z, |w| + k);
    assert z[|w| + k..] == s[k..];
  }

  lemma BlankTrims(s: string)
    ensures Blank(s) <==> TrimLeft(s) == ""
    ensures Blank(s) <==> Emit(s) == []
  {
    if Leading(s) < |s| {
      assert TrimLeft(s)[0] == s[Leading(s)];
    }
  }

  /** Leading whitespace, newlines included, never changes the lines. */
  lemma {:induction false} LinesSkip(w: string, s: string)
    requires Blank(w)
    ensures Lines(w + s) == Lines(s)
    decreases |w|
  {
    if HasNewline(w) {
      var line, rest := CutFirstLine(w);
      BlankParts(line, "\n", rest);
      AssocLine(line, rest, s);
      LinesCons(line, rest + s);
      BlankTrims(line);
      LinesSkip(rest, s);
    } else if HasNewline(s) {
      var line, rest := CutFirstLine(s);
      AssocLine(w, line, rest);
      LinesCons(w + line, rest);
      LinesCons(line, rest);
      TrimLeftSplit(w, line);
    } else {
      LinesNoNewline(s);
      LinesNoNewline(w + s);
      TrimLeftSplit(w, s);
    }
  }

  lemma BlankParts(a: string, b: string, c: string)
    ensures Blank(a + b + c) <==> Blank(a) && Blank(b) && Blank(c)
  {
    var s := a + b + c;
    assert forall i :: 0 <= i < |a| ==> a[i] == s[i];
    assert forall i :: 0 <= i < |b| ==> b[i] == s[|a| + i];
    assert forall i :: 0 <= i < |c| ==> c[i] == s[|a| + |b| + i];
  }

  /** A text cut into its leading whitespace and the rest. */
  lemma CutSpace(s: string) returns (w: string)
    ensures Blank(w) && s == w + TrimLeft(s)
  {
    w := s[..Leading(s)];
  }

  /** Texts that differ only in leading whitespace have the same lines, whatever follows. */
  lemma LinesSameStart(a: string, b: string, x: string)
    requires TrimLeft(a) == TrimLeft(b)
    ensures Lines(a + x) == Lines(b + x)
  {
    var t := TrimLeft(a);
    var v := CutSpace(a);
    var w := CutSpace(b);
    Regroup(v, t, x);
    Regroup(w, t, x);
    LinesSkip(v, t + x);
    LinesSkip(w, t + x);
  }

  /** A text is the lines that are ended by a newline, then its tail. */
  lemma CutTail(s: string) returns (head: string)
    requires HasNewline(s)
    ensures s == head + "\n" + Tail(s) && s[..Cut(s)] == head + "\n"
    ensures Complete(s) == Lines(head)
  {
    head := s[..Cut(s) - 1];
    CutAt(s, Cut(s));
    LinesEnd(head);
  }

  lemma LinesEnd(s: string)
    ensures Lines(s + "\n") == Lines(s)
  {
    assert s + "\n" + "" == s + "\n";
    LinesSplit(s, "");
    LinesNoNewline("");
    assert Lines("") == [];
  }

  lemma NoTail(s: string)
    requires !HasNewline(s)
    ensures Cut(s) == 0 && Tail(s) == s && Complete(s) == []
  {
    LinesNoNewline("");
    assert s[..0] == "";
  }

  lemma TailOfLast(a: string, b: string)
    requires HasNewline(b)
    ensures Cut(a + b) == |a| + Cut(b) && Tail(a + b) == Tail(b)
  {
    hide Cut;
    var s, k := a + b, |a| + Cut(b);
    assert forall i :: |a| <= i < |s| ==> s[i] == b[i - |a|];
    assert Cut(b) > 0;
    CutIs(s, k);
    assert s[k..] == b[Cut(b)..];
  }

  lemma TailGrows(a: string, b: string)
    requires !HasNewline(b)
    ensures Cut(a + b) == Cut(a) && Tail(a + b) == Tail(a) + b
  {
    hide Cut;
    var s, k := a + b, Cut(a);
    forall i | k <= i < |s| ensures s[i] != '\n' {
      assert s[i] == if i < |a| then a[i] else b[i - |a|];
    }
    CutIs(s, k);
    assert s[k..] == a[k..] + b;
  }

  /** The tail of a text that is continued. */
  lemma TailAppend(a: string, b: string)
    ensures HasNewline(b) ==> Cut(a + b) == |a| + Cut(b) && Tail(a + b) == Tail(b)
    ensures !HasNewline(b) ==> Cut(a + b) == Cut(a) && Tail(a + b) == Tail(a) + b
  {
    hide Cut, Tail, HasNewline;
    if HasNewline(b) {
      TailOfLast(a, b);
    } else {
      TailGrows(a, b);
    }
  }

  /** Only the tail of a text takes part in what follows it. */
  lemma LinesComplete(a: string, b: string)
    ensures Lines(a + b) == Complete(a) + Lines(Tail(a) + b)
  {
    if HasNewline(a) {
      var head := CutTail(a);
      AssocLine(head, Tail(a), b);
      LinesSplit(head, Tail(a) + b);
    } else {
      NoTail(a);
    }
  }

  lemma CompleteAppend(a: string, b: string)
    ensures HasNewline(b) ==> Complete(a + b) == Lines(a + b[..Cut(b)])
    ensures !HasNewline(b) ==> Complete(a + b) == Complete(a)
  {
    hide Lines, Cut, Tail, HasNewline;
    TailAppend(a, b);
    if HasNewline(b) {
      assert (a + b)[..|a| + Cut(b)] == a + b[..Cut(b)];
    } else {
      assert (a + b)[..Cut(a)] == a[..Cut(a)];
    }
  }

  /** Skipping leading whitespace changes neither what is parsed nor what is left over. */
  lemma ParsedSkip(w: string, s: string, isLast: bool)
    requires Blank(w)
    ensures Parsed(w + s, isLast) == Parsed(s, isLast)
    ensures TrimLeft(Tail(w + s)) == TrimLeft(Tail(s))
  {
    hide Lines, HasNewline, TrimLeft, Cut;
    LinesSkip(w, s);
    TailAppend(w, s);
    CompleteAppend(w, s);
    if HasNewline(s) {
      LinesSkip(w, s[..Cut(s)]);
    } else {
      NoTail(s);
      TrimLeftSplit(Tail(w), s);
      BlankComplete(w);
    }
  }

  lemma BlankComplete(w: string)
    requires Blank(w)
    ensures Complete(w) == []
  {
    var u := w[..Cut(w)];
    assert u + "" == u;
    LinesSkip(u, "");
    LinesNoNewline("");
  }

  lemma LineThenNewline(line: string)
    requires !HasNewline(line)
    ensures Complete(line + "\n") == Emit(line) && Tail(line + "\n") == ""
  {
    var z := line + "\n";
    assert z[..|z|] == z && z[|z|..] == "" && Cut(z) == |z|;
    LinesEnd(line);
    LinesNoNewline(line);
  }

  lemma ParsedLine(line: string, s: string, isLast: bool)
    requires !HasNewline(line)
    ensures Parsed(line + "\n" + s, isLast) == Emit(line) + Parsed(s, isLast)
    ensures Tail(line + "\n" + s) == Tail(s)
  {
    hide Lines, Emit, HasNewline;
    LinesCons(line, s);
    var z := line + "\n";
    TailAppend(z, s);
    CompleteAppend(z, s);
    LineThenNewline(line);
    if HasNewline(s) {
      LinesCons(line, s[..Cut(s)]);
    } else {
      NoTail(s);
      EmptyPrefix(s);
    }
  }

  lemma EmptyPrefix(s: string)
    ensures "" + s == s
  {
  }

  // What the lines of a text are, said of its characters.

  /** A lone character is a line of its own, unless it is a space or a control character from tab to return. */
  lemma SpaceExactly(c: char)
    ensures Lines([c]) == if c == ' ' || 9 <= c as int <= 13 then [] else [[c]]
  {
    hide Lines, Trim, Emit;
    SpaceCodes(c);
    if IsSpace(c) {
      BlankLine([c]);
    } else {
      LinesNoNewline([c]);
      TrimsToItself([c]);
    }
  }

  lemma SpaceCodes(c: char)
    ensures IsSpace(c) <==> c == ' ' || 9 <= c as int <= 13
  {
  }

  lemma BlankLine(s: string)
    requires Blank(s)
    ensures Lines(s) == []
  {
    hide Lines, IsSpace, Emit, TrimLeft;
    LinesSkip(s, "");
    LinesNoNewline("");
    BlankTrims("");
    assert s + "" == s;
  }

  lemma TrimsToItself(s: string)
    requires s != "" && !IsSpace(s[0]) && !IsSpace(s[|s| - 1])
    ensures Emit(s) == [s]
  {
    hide IsSpace, Leading, Trailing;
    LeadingIs(s, 0);
    assert s[0..] == s && s[..|s|] == s;
    TrailingIs(s, |s|);
  }

  predicate Spaces(s: string) {
    forall i :: 0 <= i < |s| ==> s[i] == ' ' || 9 <= s[i] as int <= 13
  }

  /** Such characters around a text, newlines included, never change its lines. */
  lemma SpacesAround(before: string, s: string, after: string)
    requires Spaces(before) && Spaces(after)
    ensures Lines(before + s + after) == Lines(s)
  {
    SpacesAreBlank(before);
    SpacesAreBlank(after);
    Regroup(before, s, after);
    LinesSkip(before, s + after);
    BlankAfter(s, after);
  }

  lemma SpacesAreBlank(s: string)
    ensures Spaces(s) <==> Blank(s)
  {
  }

  lemma BlankAfter(s: string, after: string)
    requires Blank(after)
    ensures Lines(s + after) == Lines(s)
  {
    hide Lines, IsSpace, Tail;
    LinesComplete(s, after);
    LinesComplete(s, "");
    assert s + "" == s;
    TailHasNoNewline(s);
    BlankBehind(Tail(s), after);
    assert Tail(s) + "" == Tail(s);
  }

  lemma TailHasNoNewline(s: string)
    ensures !HasNewline(Tail(s))
  {
  }

  lemma {:induction false} BlankBehind(s: string, after: string)
    requires !HasNewline(s) && Blank(after)
    ensures Lines(s + after) == Lines(s)
    decreases |after|
  {
    hide Lines, IsSpace;
    if HasNewline(after) {
      var line, rest := CutFirstLine(after);
      BlankParts(line, "\n", rest);
      assert s + after == s + line + "\n" + rest;
      JoinedHasNone(s, line);
      LinesCons(s + line, rest);
      BlankBehind(s, line);
      LinesNoNewline(s + line);
      BlankBehind("", rest);
      assert "" + rest == rest;
      LinesNoNewline("");
      BlankTrims("");
      assert Emit(s + line) + [] == Emit(s + line);
    } else {
      JoinedHasNone(s, after);
      LinesNoNewline(s + after);
      LinesNoNewline(s);
      TrimBehind(s, after);
    }
  }

  lemma JoinedHasNone(a: string, b: string)
    requires !HasNewline(a) && !HasNewline(b)
    ensures !HasNewline(a + b)
  {
  }

  /** Whitespace behind a text is trimmed away. */
  lemma TrimBehind(s: string, after: string)
    requires Blank(after)
    ensures Trim(s + after) == Trim(s)
  {
    hide IsSpace, Trailing;
    var k := Leading(s);
    if k == |s| {
      BlankParts("", s, after);
      assert "" + s + after == s + after;
      BlankTrims(s + after);
      BlankTrims(s);
    } else {
      var t := s[k..];
      forall i | 0 <= i <= k ensures (s + after)[i] == s[i] {
      }
      LeadingIs(s + after, k);
      assert (s + after)[k..] == t + after;
      var m := Trailing(t);
      forall i | m <= i < |t + after| ensures IsSpace((t + after)[i]) {
        assert (t + after)[i] == if i < |t| then t[i] else after[i - |t|];
      }
      TrailingIs(t + after, m);
    }
  }

  /** One line: what stands between the spaces, which neither starts nor ends with one, and holds no newline. */
  lemma LineWritten(before: string, core: string, after: string, rest: string)
    requires Spaces(before) && Spaces(after) && !HasNewline(core)
    requires core != "" && !Spaces(core[..1]) && !Spaces(core[|core| - 1..])
    ensures Lines(before + core + after) == [core]
    ensures Lines(before + core + after + "\n" + rest) == [core] + Lines(rest)
  {
    hide Lines, IsSpace, Emit, HasNewline;
    SpacesAround(before, core, after);
    LinesNoNewline(core);
    FirstAndLast(core);
    TrimsToItself(core);
    LinesSplit(before + core + after, rest);
  }

  lemma FirstAndLast(s: string)
    requires s != "" && !Spaces(s[..1]) && !Spaces(s[|s| - 1..])
    ensures !IsSpace(s[0]) && !IsSpace(s[|s| - 1])
  {
    SpaceCodes(s[0]);
    SpaceCodes(s[|s| - 1]);
  }

  /** A line of spaces is no line. */
  lemma BlankLineWritten(line: string, rest: string)
    requires Spaces(line)
    ensures Lines(line) == [] && Lines(line + "\n" + rest) == Lines(rest)
  {
    SpacesAreBlank(line);
    BlankLine(line);
    LinesSplit(line, rest);
  }
}
