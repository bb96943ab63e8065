/**
 * Writing and reading a settings file fit together: a value written is the value read, everything
 * else reads as before, and the last write wins, over any number of edits.
 */
module SettingsLaws {
  import opened Common
  import opened TextLines
  import opened SettingsText

  // ------------------------------------------------------------------ lines and tests

  /** A line ends a section exactly when it starts with something visible that is no hash mark. */
  lemma EndsMeans(l: string)
    ensures EndsSection()(l) <==> l != "" && !IsSpace(l[0]) && l[0] != '#'
  {
    if l != "" && !IsSpace(l[0]) { StripKeepsFirst(l); }
  }

  /** Every section header the reader accepts ends the section before it. */
  lemma HeaderEnds(l: string, section: string)
    requires IsName(section) && ReaderHeader(section)(l)
    ensures EndsSection()(l)
  {
    EndsMeans(l);
    StripNotEmpty(Bare(l));
    StripKeepsFirst(Bare(l));
    assert (section + ":")[0] == section[0];
  }

  lemma NoCrLf(s: string)
    requires BreakFree(s)
    ensures RStripCrLf(s) == s
  {
  }

  lemma StrippedIsBare(l: string)
    requires IsLine(l) && (l[|l| - 1] == '\r' || l[|l| - 1] == '\n')
    ensures RStripCrLf(l) == Bare(l)
  {
    BareHasNoBreak(l);
    NoCrLf(Bare(l));
    if |Bare(l)| + 2 == |l| { assert l[..|l| - 1][..|l| - 2] == Bare(l); }
  }

  /** Every header the writer accepts, the reader accepts. */
  lemma WriterIsReader(l: string, section: string)
    requires IsName(section) && IsLine(l) && WriterHeader(section)(l)
    ensures ReaderHeader(section)(l) && Bare(l) == section + ":"
  {
    var h := section + ":";
    assert h[0] == section[0];
    if l[|l| - 1] == '\r' || l[|l| - 1] == '\n' {
      StrippedIsBare(l);
    } else {
      assert l == h && !IsBreak(l[|l| - 1]);
    }
    StripFixed(h);
  }

  lemma {:induction false} ColonBehindBlanks(s: string) returns (i: nat)
    requires BlanksThenColon(s)
    ensures i < |s| && s[i] == ':' && forall j :: 0 <= j < i ==> IsSpace(s[j])
  {
    if s[0] == ':' {
      i := 0;
    } else {
      var k := ColonBehindBlanks(s[1..]);
      i := k + 1;
      forall j | 0 <= j < i
        ensures IsSpace(s[j])
      {
        if j > 0 { assert s[j] == s[1..][j - 1]; }
      }
    }
  }

  /** The reader's lines for a key are among the writer's; a writer's line for a key is no reader's line for another. */
  lemma KeyTests(l: string, key: string, other: string)
    requires IsName(key) && IsName(other)
    ensures KeyLine(key)(l) ==> KeyPattern(key)(l)
    ensures KeyPattern(key)(l) && KeyLine(other)(l) ==> other == key
    ensures KeyPattern(key)(l) ==> !EndsSection()(l)
  {
    EndsMeans(l);
    if KeyLine(key)(l) {
      assert l[..|KeyPrefix(key)|] == KeyPrefix(key);
      assert l[2 + |key|..][0] == l[2 + |key|] == KeyPrefix(key)[2 + |key|];
      assert "  " + key == KeyPrefix(key)[..2 + |key|] == l[..2 + |key|];
    }
    if KeyPattern(key)(l) && KeyLine(other)(l) {
      var i := ColonBehindBlanks(l[2 + |key|..]);
      PatternKey(l, key, other, i);
    }
  }

  /** No character of a name is a colon or a blank. */
  lemma NameVisible(key: string, l: string, i: nat)
    requires IsName(key) && "  " + key <= l && 2 <= i < 2 + |key|
    ensures l[i] != ':' && !IsSpace(l[i])
  {
    assert l[i] == ("  " + key)[i] == key[i - 2];
  }

  lemma PatternKey(l: string, key: string, other: string, i: nat)
    requires IsName(key) && IsName(other) && "  " + key <= l && KeyPrefix(other) <= l
    requires 2 + |key| + i < |l| && l[2 + |key| + i] == ':' && (i > 0 ==> IsSpace(l[2 + |key|]))
    ensures other == key
  {
    hide IsName, IsSpace;
    var o := KeyPrefix(other);
    assert l[2 + |other|] == o[2 + |other|] == ':';
    assert "  " + other == o[..2 + |other|] <= l;
    if |other| < |key| {
      NameVisible(key, l, 2 + |other|);
    } else if |key| < |other| {
      NameVisible(other, l, 2 + |key|);
    } else {
      assert key == ("  " + key)[2..] == l[2..2 + |key|] == ("  " + other)[2..] == other;
    }
  }

  lemma ContentBreakFree(key: string, value: string)
    requires IsName(key) && BreakFree(value)
    ensures BreakFree("  " + key + ": " + value)
  {
    var content := "  " + key + ": " + value;
    forall i | 0 <= i < |content|
      ensures !IsBreak(content[i])
    {
      if 2 <= i < 2 + |key| {
        assert content[i] == key[i - 2];
      } else if i >= 4 + |key| {
        assert content[i] == value[i - 4 - |key|];
      }
    }
  }

  lemma EndingOfLine(content: string, ending: string)
    requires BreakFree(content) && content != "" && (ending == "\n" || ending == "\r\n")
    ensures EndingOf(content + ending) == ending
  {
    var l := content + ending;
    assert l[|l| - 2..] == if ending == "\r\n" then ending else [content[|content| - 1], '\n'];
  }

  /** What the writer's line is to the reader and to the writer. */
  lemma EntryFacts(key: string, value: string, ending: string)
    requires IsName(key) && BreakFree(value) && (ending == "\n" || ending == "\r\n")
    ensures var l := Entry(key, value, ending);
            && IsLine(l) && Terminated(l) && l[0] == ' ' && Bare(l) == "  " + key + ": " + value
            && KeyPattern(key)(l) && KeyLine(key)(l) && !EndsSection()(l) && EndingOf(l) == ending
            && Bare(l)[|KeyPrefix(key)|..] == " " + value
  {
    hide EndsSection, IsName, EndingOf, IsLine, Bare, KeyPattern;
    var content := "  " + key + ": " + value;
    var l := Entry(key, value, ending);
    assert l == content + ending;
    ContentBreakFree(key, value);
    LineOf(content, ending);
    EndingOfLine(content, ending);
    assert content[..|KeyPrefix(key)|] == KeyPrefix(key) && content[|KeyPrefix(key)|..] == " " + value;
    KeyTests(l, key, key);
  }

  // ------------------------------------------------------------------ searching spliced lines

  /** The writer's line for a key, exactly: two blanks, the key, any blanks, a colon, anything. */
  lemma {:induction false} ColonBehind(s: string)
    ensures BlanksThenColon(s) <==> exists i: nat :: i < |s| && s[i] == ':' && forall j :: 0 <= j < i ==> IsSpace(s[j])
  {
    if s != "" && s[0] != ':' {
      ColonBehind(s[1..]);
      if i: nat :| i < |s| && s[i] == ':' && forall j :: 0 <= j < i ==> IsSpace(s[j]) {
        assert s[1..][i - 1] == ':' && forall j :: 0 <= j < i - 1 ==> s[1..][j] == s[j + 1];
      }
      if BlanksThenColon(s) {
        var k: nat :| k < |s[1..]| && s[1..][k] == ':' && forall j :: 0 <= j < k ==> IsSpace(s[1..][j]);
        assert s[k + 1] == ':' && forall j :: 0 <= j < k + 1 ==> s[j] == if j == 0 then s[0] else s[1..][j - 1];
      }
    }
  }

  /** The key after two blanks, more blanks, a colon, and the rest of the line. */
  ghost predicate IsKeyLine(l: string, key: string, blanks: string, rest: string) {
    l == ("  " + key) + (blanks + (":" + rest)) && forall i :: 0 <= i < |blanks| ==> IsSpace(blanks[i])
  }

  lemma KeyPatternIff(l: string, key: string)
    ensures KeyPattern(key)(l) <==> exists blanks, rest :: IsKeyLine(l, key, blanks, rest)
  {
    hide IsSpace, BlanksThenColon;
    if KeyPattern(key)(l) { var blanks, rest := KeyLineParts(l, key); }
    forall blanks, rest | IsKeyLine(l, key, blanks, rest) ensures KeyPattern(key)(l) {
      PartsAreKeyLine(l, key, blanks, rest);
    }
  }

  lemma KeyLineParts(l: string, key: string) returns (blanks: string, rest: string)
    requires KeyPattern(key)(l)
    ensures IsKeyLine(l, key, blanks, rest)
  {
    hide IsSpace, BlanksThenColon;
    var s := l[2 + |key|..];
    ColonBehind(s);
    var i: nat :| i < |s| && s[i] == ':' && forall j :: 0 <= j < i ==> IsSpace(s[j]);
    blanks, rest := s[..i], s[i + 1..];
    SplitAt(s, i, ':');
    assert l == ("  " + key) + s;
  }

  lemma SplitAt(s: string, i: nat, c: char)
    requires i < |s| && s[i] == c
    ensures s == s[..i] + ([c] + s[i + 1..])
  {
  }

  lemma PartsAreKeyLine(l: string, key: string, blanks: string, rest: string)
    requires IsKeyLine(l, key, blanks, rest)
    ensures KeyPattern(key)(l)
  {
    hide IsSpace, BlanksThenColon;
    var front, s := "  " + key, blanks + (":" + rest);
    assert l[..|front|] == front && l[|front|..] == s;
    assert s[|blanks|] == ':';
    ColonBehind(s);
  }

  lemma {:induction false} CutAtHash(v: string, comment: string)
    requires '#' !in v
    ensures BeforeHash(v) == v && BeforeHash(v + "#" + comment) == v
  {
    if v != "" {
      CutAtHash(v[1..], comment);
      assert (v + "#" + comment)[1..] == v[1..] + "#" + comment;
    }
  }

  /** What the reader makes of a value: a comment is cut off, blanks around it are stripped, and a pair of equal quotes is taken off. */
  lemma CleanedExactly(v: string, comment: string)
    requires '#' !in v && Strip(v) == v
    ensures Cleaned(v + "#" + comment) == Cleaned(v)
    ensures Cleaned(v) == if |v| >= 2 && v[0] in {'"', '\''} && v[|v| - 1] == v[0] then v[1..|v| - 1] else v
  {
    CutAtHash(v, comment);
  }

  /** Line `i` is a line of the writer for the key, in the first section of this name. */
  ghost predicate HoldsKeyAt(lines: seq<string>, section: string, key: string, h: nat, i: nat) {
    && h < i < |lines| && WriterHeader(section)(lines[h]) && (forall j :: 0 <= j < h ==> !WriterHeader(section)(lines[j]))
    && KeyPattern(key)(lines[i]) && forall j :: h < j < i ==> !EndsSection()(lines[j])
  }

  /** A replacement is an upsert, refused exactly where the section has no line for the key. */
  lemma ReplacedIff(text: string, section: string, key: string, value: string)
    ensures Replaced(text, section, key, value).Some? <==>
            exists h: nat, i: nat :: HoldsKeyAt(Lines(text), section, key, h, i) && !EndsSection()(Lines(text)[i])
    ensures Replaced(text, section, key, value).Some? ==> Replaced(text, section, key, value) == Upserted(text, section, key, value)
  {
    ReplacedWhere(text, section, key, value);
    hide Lines, First, WriterHeader, KeyPattern, EndsSection, Located, Replaced, Upserted;
    var lines := Lines(text);
    var p := Located(lines, section, key);
    if p.Some? && p.value.index < p.value.end { LocatedHolds(lines, section, key); }
    forall h: nat, i: nat | HoldsKeyAt(lines, section, key, h, i) && !EndsSection()(lines[i])
      ensures p.Some? && p.value.index < p.value.end
    {
      HeldIsLocated(lines, section, key, h, i);
    }
  }

  lemma ReplacedWhere(text: string, section: string, key: string, value: string)
    ensures var p := Located(Lines(text), section, key); Replaced(text, section, key, value).Some? <==> p.Some? && p.value.index < p.value.end
    ensures Replaced(text, section, key, value).Some? ==> Replaced(text, section, key, value) == Upserted(text, section, key, value)
  {
    hide Lines, Located, Join, Spliced, EndingOf, Newline, Entry;
  }

  lemma LocatedHolds(lines: seq<string>, section: string, key: string)
    requires var p := Located(lines, section, key); p.Some? && p.value.index < p.value.end
    ensures var p := Located(lines, section, key).value;
            HoldsKeyAt(lines, section, key, p.start, p.index) && !EndsSection()(lines[p.index])
  {
    hide First, WriterHeader, KeyPattern, EndsSection;
    var p := Located(lines, section, key).value;
    FirstFound(lines, 0, |lines|, WriterHeader(section));
    FirstFound(lines, p.start + 1, |lines|, EndsSection());
    FirstFound(lines, p.start + 1, p.end, KeyPattern(key));
  }

  lemma HeldIsLocated(lines: seq<string>, section: string, key: string, h: nat, i: nat)
    requires HoldsKeyAt(lines, section, key, h, i) && !EndsSection()(lines[i])
    ensures var p := Located(lines, section, key); p.Some? && p.value.index < p.value.end
  {
    hide First, WriterHeader, KeyPattern, EndsSection;
    FirstIs(lines, 0, |lines|, WriterHeader(section), h);
    var e := First(lines, h + 1, |lines|, EndsSection());
    FirstFound(lines, h + 1, |lines|, EndsSection());
    assert i < e;
    FirstFound(lines, h + 1, e, KeyPattern(key));
  }

  /** None of the lines passes the test. */
  ghost predicate NoneOf(lines: seq<string>, p: LineTest) { forall i :: 0 <= i < |lines| ==> !p(lines[i]) }

  lemma SplicedAt(lines: seq<string>, q: nat, d: nat, mid: seq<string>, i: nat)
    requires q + d <= |lines| && i < |Spliced(lines, q, d, mid)|
    ensures Spliced(lines, q, d, mid)[i] ==
            if i < q then lines[i] else if i < q + |mid| then mid[i - q] else lines[i - |mid| + d]
  {
  }

  /** A search that ends before the change finds what it found. */
  lemma SearchBefore(lines: seq<string>, q: nat, d: nat, mid: seq<string>, from: nat, bound: nat, p: LineTest)
    requires from <= bound <= q && q + d <= |lines|
    ensures First(Spliced(lines, q, d, mid), from, bound, p) == First(lines, from, bound, p)
  {
    hide Spliced, First;
    FirstFound(lines, from, bound, p);
    var r := First(lines, from, bound, p);
    forall i | from <= i <= r && i < bound
      ensures Spliced(lines, q, d, mid)[i] == lines[i]
    {
      SplicedAt(lines, q, d, mid, i);
    }
    FirstIs(Spliced(lines, q, d, mid), from, bound, p, r);
  }

  /** Index of an untouched old line among the new ones. */
  function Moved(i: nat, q: nat, d: nat, mid: seq<string>): int { if i < q then i else i + |mid| - d }

  /** A search across or behind the change, of lines it does not touch, finds the same line, moved. */
  lemma SearchAcross(lines: seq<string>, q: nat, d: nat, mid: seq<string>, from: nat, bound: nat, p: LineTest)
    requires from <= bound <= |lines| && q + d <= bound && (from <= q || q + d <= from)
    requires NoneOf(mid, p) && NoneOf(lines[q..q + d], p)
    ensures var n := Spliced(lines, q, d, mid);
            var from' := if from <= q then from else from + |mid| - d;
            && 0 <= from' <= bound + |mid| - d <= |n|
            && First(n, from', bound + |mid| - d, p) == Moved(First(lines, from, bound, p), q, d, mid)
  {
    hide Spliced, First;
    var n := Spliced(lines, q, d, mid);
    FirstFound(lines, from, bound, p);
    var r := First(lines, from, bound, p);
    var from' := if from <= q then from else from + |mid| - d;
    var r' := Moved(r, q, d, mid);
    forall i | from' <= i <= r' && i < bound + |mid| - d
      ensures i < |n| && (p(n[i]) <==> i == r')
    {
      SplicedAt(lines, q, d, mid, i);
    }
    FirstIs(n, from', bound + |mid| - d, p, r');
  }

  // ------------------------------------------------------------------ reading spliced lines

  /** A change inside a section's body: headers stay, the section grows or shrinks by the change. */
  ghost predicate WithinSection(lines: seq<string>, section: string, q: nat, d: nat, mid: seq<string>) {
    var start := First(lines, 0, |lines|, WriterHeader(section));
    start < |lines| && start < q && q + d <= First(lines, start + 1, |lines|, EndsSection()) && NoneOf(mid, EndsSection())
  }

  ghost predicate AllLines(lines: seq<string>) { forall i :: 0 <= i < |lines| ==> IsLine(lines[i]) }

  lemma NoHeaderInside(lines: seq<string>, section: string, q: nat, d: nat, mid: seq<string>, s: string)
    requires WithinSection(lines, section, q, d, mid) && IsName(s) && AllLines(lines) && AllLines(mid)
    ensures NoneOf(mid, ReaderHeader(s)) && NoneOf(lines[q..q + d], ReaderHeader(s))
    ensures NoneOf(mid, WriterHeader(s)) && NoneOf(lines[q..q + d], WriterHeader(s))
    ensures NoneOf(lines[q..q + d], EndsSection())
  {
    hide ReaderHeader, WriterHeader, EndsSection, First;
    var gone := lines[q..q + d];
    var start := First(lines, 0, |lines|, WriterHeader(section));
    FirstFound(lines, start + 1, |lines|, EndsSection());
    forall i | 0 <= i < |gone|
      ensures !EndsSection()(gone[i]) && IsLine(gone[i])
    {
      assert gone[i] == lines[q + i];
    }
    NotEndsNotHeader(gone, s);
    NotEndsNotHeader(mid, s);
  }

  lemma NotEndsNotHeader(lines: seq<string>, s: string)
    requires NoneOf(lines, EndsSection()) && IsName(s) && AllLines(lines)
    ensures NoneOf(lines, ReaderHeader(s)) && NoneOf(lines, WriterHeader(s))
  {
    hide ReaderHeader, WriterHeader, EndsSection;
    forall i | 0 <= i < |lines|
      ensures !ReaderHeader(s)(lines[i]) && !WriterHeader(s)(lines[i])
    {
      if WriterHeader(s)(lines[i]) { WriterIsReader(lines[i], s); }
      if ReaderHeader(s)(lines[i]) { HeaderEnds(lines[i], s); }
    }
  }

  /** A search behind the change finds what it found, moved. */
  lemma SearchBehind(lines: seq<string>, q: nat, d: nat, mid: seq<string>, from: nat, bound: nat, p: LineTest)
    requires q + d <= from <= bound <= |lines|
    ensures var n := Spliced(lines, q, d, mid);
            && 0 <= from + |mid| - d <= bound + |mid| - d <= |n|
            && First(n, from + |mid| - d, bound + |mid| - d, p) == First(lines, from, bound, p) + |mid| - d
  {
    hide Spliced, First;
    var n := Spliced(lines, q, d, mid);
    FirstFound(lines, from, bound, p);
    var r := First(lines, from, bound, p);
    forall i | from <= i <= r && i < bound
      ensures n[i + |mid| - d] == lines[i]
    {
      SplicedAt(lines, q, d, mid, i + |mid| - d);
    }
    forall j | from + |mid| - d <= j < r + |mid| - d
      ensures !p(n[j])
    {
      assert n[(j - |mid| + d) + |mid| - d] == lines[j - |mid| + d];
    }
    FirstIs(n, from + |mid| - d, bound + |mid| - d, p, r + |mid| - d);
  }

  /** The reader's answer, from the three lines it looks for. */
  lemma ReadIs(lines: seq<string>, s: string, k: string, h: nat, e: nat, i: nat)
    requires h < i <= e <= |lines|
    requires h == First(lines, 0, |lines|, ReaderHeader(s))
    requires e == First(lines, h + 1, |lines|, EndsSection()) && i == First(lines, h + 1, e, KeyLine(k))
    ensures ReadLines(lines, s, k) == Some(if i == e then None else Some(ValueIn(lines[i], k)))
  {
    hide First, ValueIn, ReaderHeader, EndsSection, KeyLine;
  }

  lemma ReadNothing(lines: seq<string>, s: string, k: string)
    requires First(lines, 0, |lines|, ReaderHeader(s)) == |lines|
    ensures ReadLines(lines, s, k) == None
  {
    hide First, ValueIn, ReaderHeader, EndsSection, KeyLine;
  }

  /** The section the reader finds for a name, unless it is the changed one, lies wholly before or behind the change. */
  lemma ReadElsewhere(lines: seq<string>, section: string, q: nat, d: nat, mid: seq<string>, s: string, k: string)
    requires WithinSection(lines, section, q, d, mid) && AllLines(lines) && AllLines(mid) && IsName(section) && IsName(s)
    requires s != section || (NoneOf(mid, KeyLine(k)) && NoneOf(lines[q..q + d], KeyLine(k)))
    ensures ReadLines(Spliced(lines, q, d, mid), s, k) == ReadLines(lines, s, k)
  {
    hide Spliced, First, ReaderHeader, WriterHeader, EndsSection, KeyLine, ReadLines, NoneOf;
    var n := |lines|;
    var start := First(lines, 0, n, WriterHeader(section));
    var h := First(lines, 0, n, ReaderHeader(s));
    NoHeaderInside(lines, section, q, d, mid, s);
    SearchAcross(lines, q, d, mid, 0, n, ReaderHeader(s));
    if h == n {
      ReadNothing(lines, s, k);
      ReadNothing(Spliced(lines, q, d, mid), s, k);
    } else {
      HeadersApart(lines, section, s);
      if h < start {
        ReadBefore(lines, q, d, mid, s, k);
      } else if h == start {
        ReadAround(lines, q, d, mid, s, k);
      } else {
        ReadBehind(lines, q, d, mid, s, k);
      }
    }
  }

  /** Where the reader's header of `s` stands relative to the writer's section. */
  lemma HeadersApart(lines: seq<string>, section: string, s: string)
    requires AllLines(lines) && IsName(section) && IsName(s)
    requires First(lines, 0, |lines|, WriterHeader(section)) < |lines| && First(lines, 0, |lines|, ReaderHeader(s)) < |lines|
    ensures var start := First(lines, 0, |lines|, WriterHeader(section));
            var h := First(lines, 0, |lines|, ReaderHeader(s));
            && (h < start ==> First(lines, h + 1, |lines|, EndsSection()) <= start)
            && (h == start ==> s == section)
            && (h > start ==> First(lines, start + 1, |lines|, EndsSection()) <= h)
  {
    hide First, ReaderHeader, WriterHeader, EndsSection;
    var start := First(lines, 0, |lines|, WriterHeader(section));
    var h := First(lines, 0, |lines|, ReaderHeader(s));
    FirstFound(lines, 0, |lines|, WriterHeader(section));
    FirstFound(lines, 0, |lines|, ReaderHeader(s));
    WriterIsReader(lines[start], section);
    HeaderEnds(lines[start], section);
    HeaderEnds(lines[h], s);
    if h < start {
      FirstFound(lines, h + 1, |lines|, EndsSection());
    } else if h == start {
      SameHeader(lines[start], s, section);
    } else {
      FirstFound(lines, start + 1, |lines|, EndsSection());
    }
  }

  lemma SameHeader(l: string, s: string, section: string)
    requires ReaderHeader(s)(l) && ReaderHeader(section)(l)
    ensures s == section
  {
    assert s == (s + ":")[..|s|] && section == (section + ":")[..|section|];
  }

  lemma ReadBefore(lines: seq<string>, q: nat, d: nat, mid: seq<string>, s: string, k: string)
    requires q + d <= |lines| && NoneOf(mid, EndsSection()) && NoneOf(lines[q..q + d], EndsSection())
    requires NoneOf(mid, ReaderHeader(s)) && NoneOf(lines[q..q + d], ReaderHeader(s))
    requires var h := First(lines, 0, |lines|, ReaderHeader(s)); h < |lines| && h < q && First(lines, h + 1, |lines|, EndsSection()) < q
    ensures ReadLines(Spliced(lines, q, d, mid), s, k) == ReadLines(lines, s, k)
  {
    hide Spliced, First, ReaderHeader, EndsSection, KeyLine, ReadLines, NoneOf, ValueIn;
    var h := First(lines, 0, |lines|, ReaderHeader(s));
    var e := First(lines, h + 1, |lines|, EndsSection());
    var i := First(lines, h + 1, e, KeyLine(k));
    SearchAcross(lines, q, d, mid, 0, |lines|, ReaderHeader(s));
    SearchAcross(lines, q, d, mid, h + 1, |lines|, EndsSection());
    SearchBefore(lines, q, d, mid, h + 1, e, KeyLine(k));
    SplicedAt(lines, q, d, mid, i);
    ReadIs(lines, s, k, h, e, i);
    ReadIs(Spliced(lines, q, d, mid), s, k, h, e, i);
  }

  lemma ReadAround(lines: seq<string>, q: nat, d: nat, mid: seq<string>, s: string, k: string)
    requires q + d <= |lines| && NoneOf(mid, EndsSection()) && NoneOf(lines[q..q + d], EndsSection())
    requires NoneOf(mid, ReaderHeader(s)) && NoneOf(lines[q..q + d], ReaderHeader(s))
    requires NoneOf(mid, KeyLine(k)) && NoneOf(lines[q..q + d], KeyLine(k))
    requires var h := First(lines, 0, |lines|, ReaderHeader(s));
             h < q && h < |lines| && q + d <= First(lines, h + 1, |lines|, EndsSection())
    ensures ReadLines(Spliced(lines, q, d, mid), s, k) == ReadLines(lines, s, k)
  {
    hide Spliced, First, ReaderHeader, EndsSection, KeyLine, ReadLines, NoneOf, ValueIn;
    var h := First(lines, 0, |lines|, ReaderHeader(s));
    var e := First(lines, h + 1, |lines|, EndsSection());
    var i := First(lines, h + 1, e, KeyLine(k));
    SearchAcross(lines, q, d, mid, 0, |lines|, ReaderHeader(s));
    SearchAcross(lines, q, d, mid, h + 1, |lines|, EndsSection());
    SearchAcross(lines, q, d, mid, h + 1, e, KeyLine(k));
    if i < e {
      FirstFound(lines, h + 1, e, KeyLine(k));
      OutsideChange(lines, q, d, i, KeyLine(k));
      SplicedAt(lines, q, d, mid, Moved(i, q, d, mid));
    }
    ReadIs(lines, s, k, h, e, i);
    ReadIs(Spliced(lines, q, d, mid), s, k, h, e + |mid| - d, Moved(i, q, d, mid));
  }

  lemma OutsideChange(lines: seq<string>, q: nat, d: nat, i: nat, p: LineTest)
    requires q + d <= |lines| && i < |lines| && NoneOf(lines[q..q + d], p) && p(lines[i])
    ensures i < q || q + d <= i
  {
  }

  lemma ReadBehind(lines: seq<string>, q: nat, d: nat, mid: seq<string>, s: string, k: string)
    requires q + d <= |lines| && NoneOf(mid, ReaderHeader(s)) && NoneOf(lines[q..q + d], ReaderHeader(s))
    requires q + d <= First(lines, 0, |lines|, ReaderHeader(s)) < |lines|
    ensures ReadLines(Spliced(lines, q, d, mid), s, k) == ReadLines(lines, s, k)
  {
    hide Spliced, First, ReaderHeader, EndsSection, KeyLine, ReadLines, NoneOf, ValueIn;
    var h := First(lines, 0, |lines|, ReaderHeader(s));
    var e := First(lines, h + 1, |lines|, EndsSection());
    var i := First(lines, h + 1, e, KeyLine(k));
    SearchAcross(lines, q, d, mid, 0, |lines|, ReaderHeader(s));
    SearchBehind(lines, q, d, mid, h + 1, |lines|, EndsSection());
    SearchBehind(lines, q, d, mid, h + 1, e, KeyLine(k));
    if i < e { SplicedAt(lines, q, d, mid, i + |mid| - d); }
    ReadIs(lines, s, k, h, e, i);
    ReadIs(Spliced(lines, q, d, mid), s, k, h + |mid| - d, e + |mid| - d, i + |mid| - d);
  }

  // ------------------------------------------------------------------ reading what was written

  /** The reader finds the section where the writer does. */
  ghost predicate Canonical(lines: seq<string>, section: string) {
    First(lines, 0, |lines|, WriterHeader(section)) == First(lines, 0, |lines|, ReaderHeader(section)) < |lines|
  }

  lemma BeforeHashBlank(s: string)
    ensures BeforeHash(" " + s) == " " + BeforeHash(s)
  {
    assert (" " + s)[1..] == s;
  }

  lemma CleanedBlank(s: string)
    ensures Cleaned(" " + s) == Cleaned(s)
  {
    BeforeHashBlank(s);
    StripBlankInFront(BeforeHash(s));
  }

  /** A value no one has to clean: no hash mark, no blanks at its edges, not quoted. */
  predicate Plain(value: string) {
    && BreakFree(value) && '#' !in value
    && (value == "" || (!IsSpace(value[0]) && !IsSpace(value[|value| - 1])))
    && (|value| >= 2 && value[0] == value[|value| - 1] ==> value[0] != '"' && value[0] != '\'')
  }

  lemma {:induction false} NoHash(s: string)
    requires '#' !in s
    ensures BeforeHash(s) == s
  {
    if s != "" { NoHash(s[1..]); }
  }

  lemma PlainIsClean(value: string)
    requires Plain(value)
    ensures Cleaned(value) == value
  {
    NoHash(value);
    StripFixed(value);
  }

  lemma ReadWritten(lines: seq<string>, section: string, key: string, value: string, ending: string, q: nat, d: nat)
    requires AllLines(lines) && IsName(section) && IsName(key) && BreakFree(value) && (ending == "\n" || ending == "\r\n")
    requires Canonical(lines, section) && WithinSection(lines, section, q, d, [Entry(key, value, ending)])
    requires First(lines, First(lines, 0, |lines|, WriterHeader(section)) + 1, q, KeyPattern(key)) == q
    ensures ReadLines(Spliced(lines, q, d, [Entry(key, value, ending)]), section, key) == Some(Some(Cleaned(value)))
  {
    hide Spliced, First, ReaderHeader, WriterHeader, EndsSection, KeyLine, KeyPattern, Cleaned, Entry, ReadLines, ValueIn, NoneOf, IsName;
    var l := Entry(key, value, ending);
    var mid := [l];
    var n := Spliced(lines, q, d, mid);
    EntryFacts(key, value, ending);
    NoHeaderInside(lines, section, q, d, mid, section);
    var start := First(lines, 0, |lines|, ReaderHeader(section));
    SearchAcross(lines, q, d, mid, 0, |lines|, ReaderHeader(section));
    SearchAcross(lines, q, d, mid, start + 1, |lines|, EndsSection());
    var end' := First(n, start + 1, |n|, EndsSection());
    FirstKeyLine(lines, q, d, l, start + 1, end', key);
    ReadIs(n, section, key, start, end', q);
    SplicedAt(lines, q, d, mid, q);
    EntryValue(key, value, ending);
  }

  lemma FirstKeyLine(lines: seq<string>, q: nat, d: nat, l: string, from: nat, bound: nat, key: string)
    requires IsName(key) && q + d <= |lines| && from <= q < bound <= |Spliced(lines, q, d, [l])|
    requires KeyLine(key)(l) && First(lines, from, q, KeyPattern(key)) == q
    ensures First(Spliced(lines, q, d, [l]), from, bound, KeyLine(key)) == q
  {
    hide Spliced, First, KeyLine, KeyPattern, IsName;
    var n := Spliced(lines, q, d, [l]);
    FirstFound(lines, from, q, KeyPattern(key));
    forall i | from <= i < q
      ensures !KeyLine(key)(n[i])
    {
      SplicedAt(lines, q, d, [l], i);
      KeyTests(lines[i], key, key);
    }
    SplicedAt(lines, q, d, [l], q);
    FirstIs(n, from, bound, KeyLine(key), q);
  }

  lemma EntryValue(key: string, value: string, ending: string)
    requires IsName(key) && BreakFree(value) && (ending == "\n" || ending == "\r\n")
    ensures ValueIn(Entry(key, value, ending), key) == Cleaned(value)
  {
    hide Entry, KeyLine, Cleaned;
    EntryFacts(key, value, ending);
    CleanedBlank(value);
  }
}
