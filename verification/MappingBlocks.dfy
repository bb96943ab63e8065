/**
 * The talkgroup mapping block of the settings file: replacing it touches no line outside it, changes
 * no other field, and leaves no trace of the block that was there.
 */
module MappingBlocks {
  import opened Common
  import opened Decimal
  import opened TextLines
  import opened SettingsText
  import opened SettingsLaws
  import opened SettingsEdits
  import opened SettingsWrites

  // ------------------------------------------------------------------ the lines of a block

  lemma MappingNames()
    ensures IsName(ROUTING) && IsName(MAPPINGS)
  {
  }

  lemma {:induction false} VisibleStrip(s: string, i: nat)
    requires i < |s| && !IsSpace(s[i])
    ensures LStrip(s) != ""
  {
    if IsSpace(s[0]) { VisibleStrip(s[1..], i - 1); }
  }

  /** A line below the key, indented deeper than it. */
  ghost predicate IsBlockLine(l: string) {
    IsLine(l) && |l| > 2 && l[0] == ' ' && l[2] == ' ' && l[|l| - 1] == '\n' && !EndsBlock()(l)
  }

  lemma IndentStep(l: string)
    ensures IndentOf(l) == if l != "" && l[0] == ' ' then 1 + IndentOf(l[1..]) else 0
  {
  }

  lemma BlockLine(content: string, newline: string, i: nat)
    requires "   " <= content && i < |content| && !IsSpace(content[i]) && BreakFree(content)
    requires newline == "\n" || newline == "\r\n"
    ensures IsBlockLine(content + newline) && (newline == "\n" ==> !HasCrlf(content + newline))
  {
    var l := content + newline;
    LineOf(content, newline);
    assert l[0] == content[0] == ' ' && l[1] == content[1] == ' ' && l[2] == content[2] == ' ' && l[i] == content[i];
    IndentStep(l);
    IndentStep(l[1..]);
    IndentStep(l[2..]);
    assert l[1..][1..] == l[2..];
    VisibleStays(l, i);
    RStripPrefix(l);
    assert RStrip(l)[i] == l[i];
    VisibleStrip(RStrip(l), i);
  }

  lemma NumeralBreakFree(prefix: string, n: nat)
    requires BreakFree(prefix)
    ensures BreakFree(prefix + Numeral(n))
  {
    hide Numeral;
    var s := prefix + Numeral(n);
    forall i | 0 <= i < |s|
      ensures !IsBreak(s[i])
    {
      if i >= |prefix| { assert IsDigit(Numeral(n)[i - |prefix|]); }
    }
  }

  lemma PairFacts(m: Mapping, newline: string)
    requires newline == "\n" || newline == "\r\n"
    ensures IsBlockLine(PairLines(m, newline)[0]) && IsBlockLine(PairLines(m, newline)[1])
    ensures newline == "\n" ==> !HasCrlf(PairLines(m, newline)[0]) && !HasCrlf(PairLines(m, newline)[1])
  {
    hide IsBlockLine, Numeral, HasCrlf;
    NumeralBreakFree("    - p25: ", m.p25);
    NumeralBreakFree("      brandmeister: ", m.brandmeister);
    assert ("    - p25: " + Numeral(m.p25))[4] == '-' && ("      brandmeister: " + Numeral(m.brandmeister))[6] == 'b';
    BlockLine("    - p25: " + Numeral(m.p25), newline, 4);
    BlockLine("      brandmeister: " + Numeral(m.brandmeister), newline, 6);
  }

  /** Block lines that bring no carriage return into a file without one. */
  ghost predicate AllBlockLines(lines: seq<string>, newline: string) {
    forall i :: 0 <= i < |lines| ==> IsBlockLine(lines[i]) && (newline == "\n" ==> !HasCrlf(lines[i]))
  }

  lemma {:induction false} PairsFacts(mappings: seq<Mapping>, newline: string)
    requires newline == "\n" || newline == "\r\n"
    ensures AllBlockLines(AllPairs(mappings, newline), newline)
  {
    hide IsBlockLine, HasCrlf;
    if mappings != [] {
      var n := |mappings| - 1;
      PairsFacts(mappings[..n], newline);
      PairFacts(mappings[n], newline);
      ConcatFacts(AllPairs(mappings[..n], newline), PairLines(mappings[n], newline), newline);
    }
  }

  lemma ConcatFacts(before: seq<string>, pair: seq<string>, newline: string)
    requires AllBlockLines(before, newline) && |pair| == 2 && IsBlockLine(pair[0]) && IsBlockLine(pair[1])
    requires newline == "\n" ==> !HasCrlf(pair[0]) && !HasCrlf(pair[1])
    ensures AllBlockLines(before + pair, newline)
  {
    hide IsBlockLine, HasCrlf;
  }

  /** The line of the key itself. */
  function HeadLine(newline: string): string { "  " + MAPPINGS + ":" + newline }

  lemma HeadFacts(newline: string)
    requires newline == "\n" || newline == "\r\n"
    ensures var l := HeadLine(newline);
            && IsLine(l) && l[0] == ' ' && l[|l| - 1] == '\n' && KeyPattern(MAPPINGS)(l) && !EndsSection()(l)
            && (HasCrlf(l) <==> newline == "\r\n")
    ensures IsName(MAPPINGS)
  {
    hide IsName, EndsSection;
    MappingNames();
    var content := "  " + MAPPINGS + ":";
    var l := HeadLine(newline);
    assert l == content + newline;
    ContentBreakFreeHead();
    LineOf(content, newline);
    assert KeyPrefix(MAPPINGS) == content;
    KeyTests(l, MAPPINGS, MAPPINGS);
    if newline == "\r\n" { assert l[|l| - 2] == '\r' && l[|l| - 2 + 1] == '\n'; }
  }

  lemma ContentBreakFreeHead()
    ensures BreakFree("  " + MAPPINGS + ":")
  {
  }

  /** The lines of a new block: they stay within the section, and only the first is a line for a key. */
  lemma BlockFacts(mappings: seq<Mapping>, newline: string)
    requires newline == "\n" || newline == "\r\n"
    ensures var mid := BlockLines(mappings, newline);
            && Insertable(mid) && AllLines(mid) && NoneOf(mid, EndsSection()) && mid[0] == HeadLine(newline)
            && (forall i :: 1 <= i < |mid| ==> IsBlockLine(mid[i]))
            && (newline == "\n" ==> forall i :: 0 <= i < |mid| ==> !HasCrlf(mid[i]))
  {
    hide HeadLine, HasCrlf, IsLine, EndsSection, EndsBlock;
    var mid := BlockLines(mappings, newline);
    assert mid[0] == HeadLine(newline) by { HeadIs(mappings, newline); }
    HeadFacts(newline);
    PairsFacts(mappings, newline);
    forall i | 0 <= i < |mid|
      ensures i > 0 ==> IsBlockLine(mid[i]) && !EndsSection()(mid[i]) && (newline == "\n" ==> !HasCrlf(mid[i]))
    {
      if i > 0 {
        assert mid[i] == AllPairs(mappings, newline)[i - 1];
        EndsMeans(mid[i]);
      }
    }
  }

  lemma HeadIs(mappings: seq<Mapping>, newline: string)
    ensures BlockLines(mappings, newline)[0] == HeadLine(newline)
  {
  }

  lemma DeepIsNoKeyLine(l: string, k: string)
    requires IsName(k) && |l| > 2 && l[2] == ' '
    ensures !KeyLine(k)(l)
  {
    assert |l| > 2 && KeyPrefix(k)[2] == k[0];
  }

  lemma DeepLine(l: string)
    requires !EndsBlock()(l)
    ensures |l| > 2 && l[2] == ' '
  {
    IndentStep(l);
    IndentStep(l[1..]);
    if |l| >= 2 { IndentStep(l[1..][1..]); }
  }

  // ------------------------------------------------------------------ one replacement

  /** Where a replacement goes. */
  ghost predicate IsBlock(lines: seq<string>, p: Place) {
    Located(lines, ROUTING, MAPPINGS) == Some(p) && p.index < p.end
  }

  lemma BlockPlace(lines: seq<string>, p: Place)
    requires IsBlock(lines, p)
    ensures p.start < p.index < p.end <= |lines|
    ensures p.start == First(lines, 0, |lines|, WriterHeader(ROUTING)) && p.end == First(lines, p.start + 1, |lines|, EndsSection())
    ensures First(lines, p.start + 1, p.index, KeyPattern(MAPPINGS)) == p.index && KeyPattern(MAPPINGS)(lines[p.index])
  {
    hide First, WriterHeader, EndsSection, KeyPattern;
    assert p.index == First(lines, p.start + 1, p.end, KeyPattern(MAPPINGS));
    FirstFound(lines, p.start + 1, p.end, KeyPattern(MAPPINGS));
    FirstIs(lines, p.start + 1, p.index, KeyPattern(MAPPINGS), p.index);
  }

  lemma BlockStops(lines: seq<string>, p: Place)
    requires p.index < p.end <= |lines|
    ensures BlockEnd(lines, p) < p.end ==> EndsBlock()(lines[BlockEnd(lines, p)])
    ensures forall i :: p.index < i < BlockEnd(lines, p) ==> !EndsBlock()(lines[i])
  {
    hide First, EndsBlock;
    FirstFound(lines, p.index + 1, p.end, EndsBlock());
  }

  /** Replacing the block keeps every line before the key and from the end of the block on. */
  lemma BlockLinesAre(text: string, mappings: seq<Mapping>, p: Place)
    requires IsBlock(Lines(text), p)
    ensures var lines := Lines(text);
            var mid := BlockLines(mappings, Newline(text));
            var n := Spliced(lines, p.index, BlockEnd(lines, p) - p.index, mid);
            && WellFormed(lines) && WellFormed(n) && BlockReplaced(text, mappings) == Some(Join(n)) && Lines(Join(n)) == n
            && n[..p.index] == lines[..p.index] && n[p.index + |mid|..] == lines[BlockEnd(lines, p)..]
            && WithinSection(lines, ROUTING, p.index, BlockEnd(lines, p) - p.index, mid)
  {
    hide Lines, Join, Located, First, HasCrlf, BlockLines, EndsBlock, WellFormed, EndsSection, WriterHeader, KeyPattern, NoneOf, IsLine;
    var lines := Lines(text);
    var mid := BlockLines(mappings, Newline(text));
    var d := BlockEnd(lines, p) - p.index;
    BlockFacts(mappings, Newline(text));
    LinesOf(text);
    BlockPlace(lines, p);
    BeforeIsTerminated(lines, p.index);
    SplicedWellFormed(lines, p.index, d, mid);
    LinesOfJoin(Spliced(lines, p.index, d, mid));
  }

  /** Every other field reads as before a replacement of the block. */
  lemma ReadOthersAfterBlock(text: string, mappings: seq<Mapping>, s: string, k: string)
    requires BlockReplaced(text, mappings).Some? && IsName(s) && IsName(k) && (s != ROUTING || k != MAPPINGS)
    ensures Read(BlockReplaced(text, mappings).value, s, k) == Read(text, s, k)
  {
    hide Lines, Join, Located, First, HasCrlf, BlockLines, EndsBlock, WellFormed, EndsSection, WriterHeader, KeyPattern, IsLine,
         WithinSection, Spliced, IsName, ReadLines, BlockReplaced, KeyLine, NoneOf;
    var lines := Lines(text);
    var p := ReplacedHasPlace(text, mappings);
    var mid := BlockLines(mappings, Newline(text));
    var d := BlockEnd(lines, p) - p.index;
    BlockLinesAre(text, mappings, p);
    LinesOf(text);
    MappingNames();
    BlockFacts(mappings, Newline(text));
    if s == ROUTING { BlockIsForNoOther(lines, p, mappings, Newline(text), k); }
    ReadElsewhere(lines, ROUTING, p.index, d, mid, s, k);
  }

  lemma ReplacedHasPlace(text: string, mappings: seq<Mapping>) returns (p: Place)
    requires BlockReplaced(text, mappings).Some?
    ensures IsBlock(Lines(text), p)
  {
    hide Located, First, BlockLines;
    p := Located(Lines(text), ROUTING, MAPPINGS).value;
  }

  /** Neither the old block nor the new one holds a line for another key. */
  lemma BlockIsForNoOther(lines: seq<string>, p: Place, mappings: seq<Mapping>, newline: string, k: string)
    requires IsBlock(lines, p) && IsName(k) && k != MAPPINGS && (newline == "\n" || newline == "\r\n")
    ensures NoneOf(BlockLines(mappings, newline), KeyLine(k)) && NoneOf(lines[p.index..BlockEnd(lines, p)], KeyLine(k))
  {
    hide Located, First, BlockLines, EndsBlock, EndsSection, WriterHeader, KeyPattern, KeyLine, IsName, IsLine, BlockEnd, HeadLine;
    var mid := BlockLines(mappings, newline);
    BlockFacts(mappings, newline);
    HeadFacts(newline);
    BlockPlace(lines, p);
    BlockStops(lines, p);
    forall i | 0 <= i < |mid|
      ensures !KeyLine(k)(mid[i])
    {
      if i == 0 { KeyTests(mid[0], MAPPINGS, k); } else { DeepIsNoKeyLine(mid[i], k); }
    }
    var gone := lines[p.index..BlockEnd(lines, p)];
    forall i | 0 <= i < |gone|
      ensures !KeyLine(k)(gone[i])
    {
      assert gone[i] == lines[p.index + i];
      if i == 0 {
        KeyTests(lines[p.index], MAPPINGS, k);
      } else {
        DeepLine(lines[p.index + i]);
        DeepIsNoKeyLine(lines[p.index + i], k);
      }
    }
  }

  // ------------------------------------------------------------------ replacing twice

  lemma CrlfOfConcat(a: string, b: string)
    requires a != "" && b != "" ==> a[|a| - 1] != '\r' || b[0] != '\n'
    ensures HasCrlf(a + b) <==> HasCrlf(a) || HasCrlf(b)
  {
    var s := a + b;
    if HasCrlf(a) {
      var i :| 0 <= i < |a| - 1 && a[i] == '\r' && a[i + 1] == '\n';
      assert s[i] == '\r' && s[i + 1] == '\n';
    }
    if HasCrlf(b) {
      var i :| 0 <= i < |b| - 1 && b[i] == '\r' && b[i + 1] == '\n';
      assert s[|a| + i] == '\r' && s[|a| + i + 1] == '\n';
    }
    if HasCrlf(s) {
      var i :| 0 <= i < |s| - 1 && s[i] == '\r' && s[i + 1] == '\n';
      if i + 1 < |a| {
        assert a[i] == '\r' && a[i + 1] == '\n';
      } else if i >= |a| {
        assert b[i - |a|] == '\r' && b[i - |a| + 1] == '\n';
      }
    }
  }

  /** A text has a CR LF exactly if one of its lines does. */
  lemma {:induction false} CrlfOfLines(lines: seq<string>)
    requires WellFormed(lines)
    ensures HasCrlf(Join(lines)) <==> exists i :: 0 <= i < |lines| && HasCrlf(lines[i])
  {
    hide HasCrlf, IsLine;
    if lines == [] {
      assert !HasCrlf("") by { NoCrlfInNothing(); }
    } else {
      var rest := lines[1..];
      CrlfOfLines(rest);
      LineNotEmpty(lines[0]);
      if rest != [] {
        LineNotEmpty(rest[0]);
        JoinFirst(rest);
        assert Apart(lines[0], lines[1]);
      }
      CrlfOfConcat(lines[0], Join(rest));
      assert forall i :: 0 < i < |lines| ==> lines[i] == rest[i - 1];
      if HasCrlf(Join(rest)) {
        var i :| 0 <= i < |rest| && HasCrlf(rest[i]);
        assert HasCrlf(lines[i + 1]);
      }
    }
  }

  lemma NoCrlfInNothing()
    ensures !HasCrlf("")
  {
  }

  /** A replacement keeps to the line ending the file uses. */
  lemma BlockKeepsNewline(text: string, mappings: seq<Mapping>, p: Place)
    requires IsBlock(Lines(text), p)
    ensures Newline(BlockReplaced(text, mappings).value) == Newline(text)
  {
    hide Lines, Join, Located, First, HasCrlf, BlockLines, EndsBlock, WellFormed, BlockEnd, BlockReplaced, IsLine, Spliced, EndsSection, WriterHeader, KeyPattern, HeadLine, WithinSection, IsBlockLine;
    var lines := Lines(text);
    var mid := BlockLines(mappings, Newline(text));
    var d := BlockEnd(lines, p) - p.index;
    BlockLinesAre(text, mappings, p);
    var n := Spliced(lines, p.index, d, mid);
    BlockFacts(mappings, Newline(text));
    HeadFacts(Newline(text));
    JoinOfLines(text);
    CrlfOfLines(lines);
    CrlfOfLines(n);
    SplicedAt(lines, p.index, d, mid, p.index);
    if !HasCrlf(text) {
      SplicedCrlf(lines, p.index, d, mid);
    } else {
      assert HasCrlf(n[p.index]);
    }
  }

  lemma SplicedCrlf(lines: seq<string>, q: nat, d: nat, mid: seq<string>)
    requires q + d <= |lines| && (forall i :: 0 <= i < |lines| ==> !HasCrlf(lines[i])) && forall i :: 0 <= i < |mid| ==> !HasCrlf(mid[i])
    ensures forall i :: 0 <= i < |Spliced(lines, q, d, mid)| ==> !HasCrlf(Spliced(lines, q, d, mid)[i])
  {
    hide HasCrlf, Spliced;
    forall i | 0 <= i < |Spliced(lines, q, d, mid)|
      ensures !HasCrlf(Spliced(lines, q, d, mid)[i])
    {
      SplicedAt(lines, q, d, mid, i);
    }
  }

  /** The block found after a replacement is the one just written. */
  lemma BlockAgain(lines: seq<string>, p: Place, mid: seq<string>)
    requires AllLines(lines) && IsBlock(lines, p) && AllLines(mid) && mid != [] && IsName(ROUTING) && IsName(MAPPINGS)
    requires WithinSection(lines, ROUTING, p.index, BlockEnd(lines, p) - p.index, mid)
    requires KeyPattern(MAPPINGS)(mid[0]) && forall i :: 1 <= i < |mid| ==> !EndsBlock()(mid[i])
    ensures var n := Spliced(lines, p.index, BlockEnd(lines, p) - p.index, mid);
            var p' := Place(p.start, p.end + |mid| - (BlockEnd(lines, p) - p.index), p.index);
            IsBlock(n, p') && BlockEnd(n, p') == p.index + |mid|
  {
    hide Located, First, EndsBlock, EndsSection, WriterHeader, KeyPattern, IsName, IsLine, Spliced;
    var d := BlockEnd(lines, p) - p.index;
    var n := Spliced(lines, p.index, d, mid);
    BlockPlace(lines, p);
    BlockStops(lines, p);
    LocatedAgain(lines, ROUTING, MAPPINGS, p.index, d, mid);
    var end' := p.end + |mid| - d;
    forall i | p.index < i < p.index + |mid|
      ensures !EndsBlock()(n[i])
    {
      SplicedAt(lines, p.index, d, mid, i);
    }
    if p.index + |mid| < end' { SplicedAt(lines, p.index, d, mid, p.index + |mid|); }
    FirstIs(n, p.index + 1, end', EndsBlock(), p.index + |mid|);
  }

  /** Replacing the block twice is replacing it by the second mappings alone, down to the last character. */
  lemma LastBlockWins(text: string, first: seq<Mapping>, second: seq<Mapping>)
    requires BlockReplaced(text, first).Some?
    ensures BlockReplaced(BlockReplaced(text, first).value, second) == BlockReplaced(text, second)
  {
    hide Lines, Join, Located, First, HasCrlf, BlockLines, EndsBlock, WellFormed, BlockEnd, BlockReplaced, IsLine, Spliced,
         KeyPattern, WithinSection, EndsSection, HeadLine;
    var lines := Lines(text);
    var p := ReplacedHasPlace(text, first);
    BlockLinesAre(text, first, p);
    BlockLinesAre(text, second, p);
    var newline := Newline(text);
    var a, b := BlockLines(first, newline), BlockLines(second, newline);
    var d := BlockEnd(lines, p) - p.index;
    var n := Spliced(lines, p.index, d, a);
    MappingNames();
    LinesOf(text);
    BlockFacts(first, newline);
    HeadFacts(newline);
    BlockAgain(lines, p, a);
    BlockKeepsNewline(text, first, p);
    var p' := Place(p.start, p.end + |a| - d, p.index);
    BlockLinesAre(Join(n), second, p');
    SplicedTwice(lines, p.index, d, a, b);
  }

  // ------------------------------------------------------------------ reading a block back

  /** The number on a line behind a prefix. */
  function NumberOn(l: string, prefix: string): Option<nat> {
    if !(prefix <= Bare(l)) then None
    else
      var digits := Bare(l)[|prefix|..];
      if digits != "" && AllDigits(digits) then Some(NumeralValue(digits)) else None
  }

  /** The pairs of a block: a list item with the P25 group, and below it the BrandMeister group. */
  function PairsOn(lines: seq<string>): Option<seq<Mapping>> {
    if lines == [] then Some([])
    else if |lines| == 1 then None
    else
      var n := |lines| - 2;
      match PairsOn(lines[..n])
      case None => None
      case Some(before) =>
        var p25, brandmeister := NumberOn(lines[n], "    - p25: "), NumberOn(lines[n + 1], "      brandmeister: ");
        if p25.None? || brandmeister.None? then None else Some(before + [Mapping(p25.value, brandmeister.value)])
  }

  lemma NumberReadsBack(prefix: string, n: nat, newline: string)
    requires BreakFree(prefix) && (newline == "\n" || newline == "\r\n")
    ensures NumberOn(prefix + Numeral(n) + newline, prefix) == Some(n)
  {
    hide Numeral, Bare, NumeralValue;
    var content := prefix + Numeral(n);
    NumeralBreakFree(prefix, n);
    LineOf(content, newline);
    assert content[|prefix|..] == Numeral(n);
    NumeralRoundTrip(n);
  }

  lemma {:induction false} PairsReadBack(mappings: seq<Mapping>, newline: string)
    requires newline == "\n" || newline == "\r\n"
    ensures PairsOn(AllPairs(mappings, newline)) == Some(mappings)
  {
    hide PairsOn, NumberOn, PairLines;
    if mappings == [] {
      NoPairs();
    } else {
      var front, last := mappings[..|mappings| - 1], mappings[|mappings| - 1];
      PairsReadBack(front, newline);
      OneMorePair(AllPairs(front, newline), front, last, newline);
      assert mappings == front + [last];
    }
  }

  lemma NoPairs()
    ensures PairsOn([]) == Some([])
  {
  }

  lemma OneMorePair(before: seq<string>, front: seq<Mapping>, last: Mapping, newline: string)
    requires newline == "\n" || newline == "\r\n"
    requires PairsOn(before) == Some(front)
    ensures PairsOn(before + PairLines(last, newline)) == Some(front + [last])
  {
    hide PairsOn, NumberOn, PairLines, Numeral;
    NumberReadsBack("    - p25: ", last.p25, newline);
    NumberReadsBack("      brandmeister: ", last.brandmeister, newline);
    PairLinesAre(last, newline);
    PairStep(before, front, "    - p25: " + Numeral(last.p25) + newline, "      brandmeister: " + Numeral(last.brandmeister) + newline);
  }

  lemma PairStep(before: seq<string>, front: seq<Mapping>, a: string, b: string)
    requires PairsOn(before) == Some(front)
    ensures var p25, brandmeister := NumberOn(a, "    - p25: "), NumberOn(b, "      brandmeister: ");
            p25.Some? && brandmeister.Some? ==> PairsOn(before + [a, b]) == Some(front + [Mapping(p25.value, brandmeister.value)])
  {
    hide NumberOn;
    var lines := before + [a, b];
    assert lines[..|before|] == before && lines[|before|] == a && lines[|before| + 1] == b;
  }

  lemma PairLinesAre(m: Mapping, newline: string)
    ensures PairLines(m, newline) == ["    - p25: " + Numeral(m.p25) + newline, "      brandmeister: " + Numeral(m.brandmeister) + newline]
  {
  }

  lemma BlockAfter(text: string, mappings: seq<Mapping>, p: Place)
    requires IsBlock(Lines(text), p)
    ensures BlockReplaced(text, mappings).Some?
    ensures var lines := Lines(BlockReplaced(text, mappings).value);
            var mid := BlockLines(mappings, Newline(text));
            && p.index + |mid| <= |lines| && p.index < p.end <= |Lines(text)|
            && lines[p.index..p.index + |mid|] == mid && lines[p.index + |mid|..] == Lines(text)[BlockEnd(Lines(text), p)..]
  {
    hide Lines, IsBlock, Newline, Spliced, BlockLines, BlockReplaced, BlockEnd;
    BlockTextIs(text, mappings, p);
    SplicedMiddle(Lines(text), p.index, BlockEnd(Lines(text), p) - p.index, BlockLines(mappings, Newline(text)));
  }

  lemma BlockTextIs(text: string, mappings: seq<Mapping>, p: Place)
    requires IsBlock(Lines(text), p)
    ensures p.index < p.end <= |Lines(text)| && BlockReplaced(text, mappings).Some?
    ensures Lines(BlockReplaced(text, mappings).value) ==
            Spliced(Lines(text), p.index, BlockEnd(Lines(text), p) - p.index, BlockLines(mappings, Newline(text)))
  {
    hide Lines, Join, IsBlock, Newline, Spliced, BlockLines, BlockReplaced, BlockEnd, WellFormed, WithinSection, First;
    BlockPlace(Lines(text), p);
    BlockLinesAre(text, mappings, p);
  }

  /** A block that was replaced is there again, under its key and up to where the old one ended, and reads back as the mappings written. */
  lemma BlockReadsBack(text: string, mappings: seq<Mapping>, p: Place)
    requires IsBlock(Lines(text), p)
    ensures BlockReplaced(text, mappings).Some?
    ensures var lines := Lines(BlockReplaced(text, mappings).value);
            var end := p.index + 1 + 2 * |mappings|;
            && end <= |lines| && p.index < p.end <= |Lines(text)| && lines[end..] == Lines(text)[BlockEnd(Lines(text), p)..]
            && lines[p.index] == "  talkgroupMappings:" + Newline(text)
            && PairsOn(lines[p.index + 1..end]) == Some(mappings)
  {
    hide Lines, First, PairsOn, AllPairs, IsBlock, Newline, BlockReplaced, EndsBlock;
    BlockAfter(text, mappings, p);
    NewlineIs(text);
    PairsReadBack(mappings, Newline(text));
    PairsCount(mappings, Newline(text));
    assert "  " + MAPPINGS + ":" == "  talkgroupMappings:";
    assert BlockLines(mappings, Newline(text)) == ["  talkgroupMappings:" + Newline(text)] + AllPairs(mappings, Newline(text));
    BehindFirst(Lines(BlockReplaced(text, mappings).value), p.index, "  talkgroupMappings:" + Newline(text), AllPairs(mappings, Newline(text)));
  }

  lemma NewlineIs(text: string)
    ensures Newline(text) == "\n" || Newline(text) == "\r\n"
  {
  }

  lemma {:induction false} PairsCount(mappings: seq<Mapping>, newline: string)
    ensures |AllPairs(mappings, newline)| == 2 * |mappings|
  {
    hide Numeral;
    if mappings != [] { PairsCount(mappings[..|mappings| - 1], newline); }
  }

  lemma SplicedMiddle(lines: seq<string>, q: nat, d: nat, mid: seq<string>)
    requires q + d <= |lines|
    ensures var n := Spliced(lines, q, d, mid);
            q + |mid| <= |n| && n[q..q + |mid|] == mid && n[q + |mid|..] == lines[q + d..]
  {
  }

  lemma BehindFirst(lines: seq<string>, q: nat, head: string, rest: seq<string>)
    requires q + 1 + |rest| <= |lines| && lines[q..q + 1 + |rest|] == [head] + rest
    ensures lines[q] == head && lines[q + 1..q + 1 + |rest|] == rest
  {
    assert lines[q] == lines[q..q + 1 + |rest|][0];
    assert lines[q + 1..q + 1 + |rest|] == lines[q..q + 1 + |rest|][1..];
  }
}
