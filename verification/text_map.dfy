/** The line index the edit applier builds over a text buffer (Truffle's
    `TextMap`): one-based line starts, the number of lines, and whether the
    text ends in a line terminator. A new line starts after every '\n'; the
    empty line after a final '\n' is not counted, and an empty text has no
    lines. */
module TextMap {

  /** Number of line terminators in `t`. */
  function NewlineCount(t: string): nat
  {
    if t == [] then 0 else (if t[0] == '\n' then 1 else 0) + NewlineCount(t[1..])
  }

  /** `finalNL`: the text ends in a line terminator. */
  predicate FinalNL(t: string)
  {
    |t| > 0 && t[|t| - 1] == '\n'
  }

  /** `lineCount()`: the recorded lines, without the empty line that follows
      a final terminator. */
  function LineCount(t: string): (n: nat)
    ensures n <= NewlineCount(t) + 1
    ensures t == [] ==> n == 0
  {
    NewlineCount(t) + (if |t| > 0 && !FinalNL(t) then 1 else 0)
  }

  /** `lineStartOffset(line)` for a one-based line: the offset just after the
      (line-1)-th terminator. The ensures clauses characterise it completely
      (see LineStartOffsetUnique). */
  function LineStartOffset(t: string, line: nat): (r: nat)
    requires 1 <= line <= NewlineCount(t) + 1
    ensures r <= |t|
    ensures r == 0 || t[r - 1] == '\n'
    ensures NewlineCount(t[..r]) == line - 1
    decreases |t|
  {
    if line == 1 then 0
    else
      var r := 1 + LineStartOffset(t[1..], if t[0] == '\n' then line - 1 else line);
      assert t[..r][1..] == t[1..][..r - 1];
      r
  }

  lemma {:induction false} NewlineCountAppend(a: string, b: string)
    ensures NewlineCount(a + b) == NewlineCount(a) + NewlineCount(b)
    decreases |a|
  {
    if a == [] {
      assert a + b == b;
    } else {
      assert (a + b)[0] == a[0];
      assert (a + b)[1..] == a[1..] + b;
      NewlineCountAppend(a[1..], b);
    }
  }

  /** A prefix never holds more terminators than the whole text. */
  lemma NewlineCountPrefix(t: string, p: nat)
    requires p <= |t|
    ensures NewlineCount(t[..p]) <= NewlineCount(t)
  {
    assert t == t[..p] + t[p..];
    NewlineCountAppend(t[..p], t[p..]);
  }

  /** A text ending in a terminator counts that terminator. */
  lemma NewlineCountLast(t: string)
    requires FinalNL(t)
    ensures NewlineCount(t) == NewlineCount(t[..|t| - 1]) + 1
  {
    assert t == t[..|t| - 1] + [t[|t| - 1]];
    NewlineCountAppend(t[..|t| - 1], [t[|t| - 1]]);
  }

  /** The line start is the only offset that begins a line and has exactly
      line-1 terminators before it. */
  lemma {:induction false} LineStartOffsetUnique(t: string, line: nat, p: nat)
    requires 1 <= line <= NewlineCount(t) + 1
    requires p <= |t| && (p == 0 || t[p - 1] == '\n')
    requires NewlineCount(t[..p]) == line - 1
    ensures p == LineStartOffset(t, line)
    decreases |t|
  {
    if line == 1 {
      if p > 0 {
        assert t[..p][..p - 1] == t[..p - 1];
        NewlineCountLast(t[..p]);
        assert false;
      }
    } else {
      assert p > 0;
      assert t[..p][1..] == t[1..][..p - 1];
      var next := if t[0] == '\n' then line - 1 else line;
      LineStartOffsetUnique(t[1..], next, p - 1);
    }
  }

  /** The start of a line depends only on the text before it: two texts that
      agree up to `p` agree on every line start at or before `p`. */
  lemma LineStartOffsetPrefix(t1: string, t2: string, line: nat, p: nat)
    requires 1 <= line <= NewlineCount(t1) + 1
    requires LineStartOffset(t1, line) <= p <= |t1| && p <= |t2|
    requires t1[..p] == t2[..p]
    ensures 1 <= line <= NewlineCount(t2) + 1
    ensures LineStartOffset(t2, line) == LineStartOffset(t1, line)
  {
    var r := LineStartOffset(t1, line);
    assert t1[..r] == t1[..p][..r] == t2[..p][..r] == t2[..r];
    NewlineCountPrefix(t2, r);
    LineStartOffsetUnique(t2, line, r);
  }

  /** `offsetToLine`: the one-based line holding offset `o`, one more than
      the terminators before it; the line starts at or before `o` and the
      next line, if any, starts after it. */
  function OffsetToLine(t: string, o: nat): (line: nat)
    requires o <= |t|
    ensures 1 <= line <= NewlineCount(t) + 1
    ensures NewlineCount(t[..o]) == line - 1
    ensures LineStartOffset(t, line) <= o
    ensures line <= NewlineCount(t) ==> o < LineStartOffset(t, line + 1)
  {
    NewlineCountPrefix(t, o);
    var line := NewlineCount(t[..o]) + 1;
    assert t[..o][..o] == t[..o];
    LineStartOffsetPrefix(t[..o], t, line, o);
    NextLineStartsAfter(t, o, line);
    line
  }

  /** The line after the one holding `o` starts past `o`: its start has more
      terminators before it than `o` has. */
  lemma NextLineStartsAfter(t: string, o: nat, line: nat)
    requires o <= |t| && line == NewlineCount(t[..o]) + 1
    ensures line <= NewlineCount(t) ==> o < LineStartOffset(t, line + 1)
  {
    if line > NewlineCount(t) {
      return;
    }
    var next := LineStartOffset(t, line + 1);
    if next <= o {
      assert t[..o][..next] == t[..next];
      NewlineCountPrefix(t[..o], next);
    }
  }

  /** The line count is at least the number of terminators. */
  lemma LineCountCoversNewlines(t: string)
    ensures NewlineCount(t) <= LineCount(t)
    ensures FinalNL(t) ==> LineCount(t) == NewlineCount(t)
    ensures t != [] && !FinalNL(t) ==> LineCount(t) == NewlineCount(t) + 1
  {
  }
}
