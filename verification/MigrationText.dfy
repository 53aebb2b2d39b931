/** Text as lines, and what trimming does to them. */
module MigrationText {
  import opened WhiteSpace

  const NEWLINE := '\n'

  /** No white space at either end. */
  predicate Trimmed(s: string) {
    s != [] ==> !IsSpace(s[0]) && !IsSpace(s[|s| - 1])
  }

  lemma {:induction false} TrimStartTrims(s: string)
    ensures TrimStart(s) != [] ==> !IsSpace(TrimStart(s)[0])
  {
    if s != [] && IsSpace(s[0]) {
      TrimStartTrims(s[1..]);
    }
  }

  lemma {:induction false} TrimEndTrims(s: string)
    requires s != [] ==> !IsSpace(s[0])
    ensures Trimmed(TrimEnd(s))
  {
    if s != [] && IsSpace(s[|s| - 1]) {
      TrimEndTrims(s[..|s| - 1]);
    }
  }

  lemma TrimTrims(s: string)
    ensures Trimmed(Trim(s))
  {
    TrimStartTrims(s);
    TrimEndTrims(TrimStart(s));
  }

  ghost predicate Spaces(s: string) {
    forall i :: 0 <= i < |s| ==> IsSpace(s[i])
  }

  lemma {:induction false} TrimStartIsTheEnd(s: string)
    ensures exists a :: Spaces(a) && s == a + TrimStart(s)
  {
    if s != [] && IsSpace(s[0]) {
      TrimStartIsTheEnd(s[1..]);
      var a :| Spaces(a) && s[1..] == a + TrimStart(s[1..]);
      assert Spaces([s[0]] + a) && s == [s[0]] + a + TrimStart(s);
    } else {
      assert Spaces([]) && s == [] + TrimStart(s);
    }
  }

  lemma {:induction false} TrimEndIsTheStart(s: string)
    ensures exists b :: Spaces(b) && s == TrimEnd(s) + b
  {
    if s != [] && IsSpace(s[|s| - 1]) {
      var front, c := s[..|s| - 1], s[|s| - 1];
      TrimEndIsTheStart(front);
      var b :| Spaces(b) && front == TrimEnd(front) + b;
      assert Spaces(b + [c]) && s == TrimEnd(s) + (b + [c]);
    } else {
      assert Spaces([]) && s == TrimEnd(s) + [];
    }
  }

  /** Trimming takes white space away from both ends, all of it and nothing else. */
  lemma TrimIsTheMiddle(s: string) returns (a: string, b: string)
    ensures Spaces(a) && Spaces(b) && s == a + Trim(s) + b && Trimmed(Trim(s))
  {
    TrimTrims(s);
    TrimStartIsTheEnd(s);
    a :| Spaces(a) && s == a + TrimStart(s);
    TrimEndIsTheStart(TrimStart(s));
    b :| Spaces(b) && TrimStart(s) == Trim(s) + b;
    assert s == a + (Trim(s) + b);
  }

  lemma {:induction false} TrimStartOfLonger(s: string, c: char)
    requires IsSpace(c)
    ensures TrimStart(s + [c]) == if TrimStart(s) == [] then [] else TrimStart(s) + [c]
  {
    if s == [] {
      assert TrimStart([c]) == TrimStart([c][1..]);
    } else if IsSpace(s[0]) {
      assert (s + [c])[1..] == s[1..] + [c];
      TrimStartOfLonger(s[1..], c);
    }
  }

  /** White space at the end does not change what a trim leaves. */
  lemma TrimIgnoresEnd(s: string, c: char)
    requires IsSpace(c)
    ensures Trim(s + [c]) == Trim(s)
  {
    TrimStartOfLonger(s, c);
    if TrimStart(s) != [] {
      assert (TrimStart(s) + [c])[..|TrimStart(s)|] == TrimStart(s);
    }
  }

  // ----- Lines -----

  function Lines(s: string): (r: seq<string>)
    ensures r != []
  {
    if s == [] then [[]]
    else if s[0] == NEWLINE then [[]] + Lines(s[1..])
    else Prefixed(s[0], Lines(s[1..]))
  }

  /** The lines of a text once one more character, not a line break, begins it. */
  function Prefixed(c: char, lines: seq<string>): (r: seq<string>)
    requires lines != []
    ensures r != []
  {
    [[c] + lines[0]] + lines[1..]
  }

  function Join(lines: seq<string>): string {
    if lines == [] then [] else if |lines| == 1 then lines[0] else lines[0] + [NEWLINE] + Join(lines[1..])
  }

  lemma JoinAfterLine(lines: seq<string>)
    requires lines != []
    ensures Join([[]] + lines) == [NEWLINE] + Join(lines)
  {
    assert ([[]] + lines)[1..] == lines;
  }

  lemma JoinPrefixed(c: char, lines: seq<string>)
    requires lines != []
    ensures Join(Prefixed(c, lines)) == [c] + Join(lines)
  {
    assert Prefixed(c, lines)[1..] == lines[1..];
    if |lines| > 1 {
      assert [c] + lines[0] + [NEWLINE] + Join(lines[1..]) == [c] + (lines[0] + [NEWLINE] + Join(lines[1..]));
    }
  }

  lemma {:induction false} JoinOfLines(s: string)
    ensures Join(Lines(s)) == s
  {
    if s != [] {
      JoinOfLines(s[1..]);
      assert s == [s[0]] + s[1..];
      if s[0] == NEWLINE {
        JoinAfterLine(Lines(s[1..]));
      } else {
        JoinPrefixed(s[0], Lines(s[1..]));
      }
    }
  }

  lemma {:induction false} SingleLine(s: string)
    requires NEWLINE !in s
    ensures Lines(s) == [s]
  {
    if s != [] {
      SingleLine(s[1..]);
      assert s == [s[0]] + s[1..];
    }
  }

  lemma PlainLine(s: string)
    requires NEWLINE !in s && Trimmed(s)
    ensures Lines(s) == [s] && Trim(s) == s
  {
    SingleLine(s);
  }

  lemma PrefixedMore(c: char, lines: seq<string>, more: seq<string>)
    requires lines != []
    ensures Prefixed(c, lines + more) == Prefixed(c, lines) + more
  {
  }

  lemma {:induction false} LinesOfJoined(a: string, b: string)
    ensures Lines(a + [NEWLINE] + b) == Lines(a) + Lines(b)
  {
    var t := a + [NEWLINE] + b;
    if a == [] {
      assert t[1..] == b;
    } else {
      assert t[0] == a[0] && t[1..] == a[1..] + [NEWLINE] + b;
      LinesOfJoined(a[1..], b);
      if a[0] != NEWLINE {
        PrefixedMore(a[0], Lines(a[1..]), Lines(b));
      }
    }
  }

  /** The lines of a text once one more character ends it. */
  function Longer(lines: seq<string>, c: char): (r: seq<string>)
    requires lines != []
    ensures r != []
  {
    if c == NEWLINE then lines + [[]] else lines[..|lines| - 1] + [lines[|lines| - 1] + [c]]
  }

  lemma LongerAfterLine(lines: seq<string>, c: char)
    requires lines != []
    ensures Longer([[]] + lines, c) == [[]] + Longer(lines, c)
  {
  }

  lemma LongerLast(lines: seq<string>, x: char, c: char)
    requires |lines| > 1 && c != NEWLINE
    ensures Longer(Prefixed(x, lines), c) == Prefixed(x, Longer(lines, c))
  {
    var n := |lines| - 1;
    var prefixed, longer := Prefixed(x, lines), Longer(lines, c);
    assert prefixed[..n] == [[x] + lines[0]] + lines[1..n] && prefixed[n] == lines[n];
    assert longer[0] == lines[0] && longer[1..] == lines[1..n] + [lines[n] + [c]];
  }

  lemma LongerFirstLine(lines: seq<string>, x: char, c: char)
    requires lines != []
    ensures Longer(Prefixed(x, lines), c) == Prefixed(x, Longer(lines, c))
  {
    var n := |lines| - 1;
    if c == NEWLINE {
      assert (lines + [[]])[0] == lines[0] && (lines + [[]])[1..] == lines[1..] + [[]];
    } else if n == 0 {
      assert lines == [lines[0]];
      assert [x] + lines[0] + [c] == [x] + (lines[0] + [c]);
    } else {
      LongerLast(lines, x, c);
    }
  }

  lemma {:induction false} LinesOfLonger(s: string, c: char)
    ensures Lines(s + [c]) == Longer(Lines(s), c)
  {
    if s == [] {
      assert s + [c] == [c] && [c][1..] == [];
      assert [c] + [] == [c];
    } else {
      LinesOfLonger(s[1..], c);
      assert (s + [c])[1..] == s[1..] + [c];
      if s[0] == NEWLINE {
        LongerAfterLine(Lines(s[1..]), c);
      } else {
        LongerFirstLine(Lines(s[1..]), s[0], c);
      }
    }
  }

  ghost function TrimmedLines(s: string): set<string> {
    set i | 0 <= i < |Lines(s)| :: Trim(Lines(s)[i])
  }

  lemma FewerAtStart(s: string)
    requires s != [] && IsSpace(s[0])
    ensures TrimmedLines(s[1..]) <= TrimmedLines(s)
  {
    var rest, all := Lines(s[1..]), Lines(s);
    forall i | 0 <= i < |rest| ensures Trim(rest[i]) in TrimmedLines(s) {
      if s[0] == NEWLINE {
        assert Trim(all[i + 1]) in TrimmedLines(s);
      } else {
        assert Trim(all[i]) in TrimmedLines(s);
      }
    }
  }

  lemma FewerAtEnd(s: string)
    requires s != [] && IsSpace(s[|s| - 1])
    ensures TrimmedLines(s[..|s| - 1]) <= TrimmedLines(s)
  {
    var front, c := s[..|s| - 1], s[|s| - 1];
    assert s == front + [c];
    LinesOfLonger(front, c);
    var rest, all := Lines(front), Lines(s);
    forall i | 0 <= i < |rest| ensures Trim(rest[i]) in TrimmedLines(s) {
      TrimIgnoresEnd(rest[i], c);
      assert Trim(all[i]) in TrimmedLines(s);
    }
  }

  lemma {:induction false} TrimStartKeepsLines(s: string)
    ensures TrimmedLines(TrimStart(s)) <= TrimmedLines(s)
  {
    if s != [] && IsSpace(s[0]) {
      FewerAtStart(s);
      TrimStartKeepsLines(s[1..]);
    }
  }

  lemma {:induction false} TrimEndKeepsLines(s: string)
    ensures TrimmedLines(TrimEnd(s)) <= TrimmedLines(s)
  {
    if s != [] && IsSpace(s[|s| - 1]) {
      FewerAtEnd(s);
      TrimEndKeepsLines(s[..|s| - 1]);
    }
  }

  /** Trimming a text brings up no line that it did not have, up to white space. */
  lemma TrimKeepsLines(s: string)
    ensures TrimmedLines(Trim(s)) <= TrimmedLines(s)
  {
    TrimStartKeepsLines(s);
    TrimEndKeepsLines(TrimStart(s));
  }
}
