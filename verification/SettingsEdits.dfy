/**
 * The laws of a settings edit on a whole text: what an upsert writes is read back, exactly when its
 * line does not run into an unterminated one and the reader finds the section where the writer does;
 * everything else reads as before.
 */
module SettingsEdits {
  import opened Common
  import opened TextLines
  import opened SettingsText
  import opened SettingsLaws

  // ------------------------------------------------------------------ lines of the edited text

  /** Lines that can stand in the middle of a text: terminated by a line feed, starting with a blank. */
  ghost predicate Insertable(mid: seq<string>) {
    mid != [] && forall i :: 0 <= i < |mid| ==> IsLine(mid[i]) && mid[i][0] == ' ' && mid[i][|mid[i]| - 1] == '\n'
  }

  lemma ApartBehindLineFeed(a: string, b: string)
    requires a != "" && a[|a| - 1] == '\n'
    ensures Apart(a, b)
  {
  }

  lemma SplicedWellFormed(lines: seq<string>, q: nat, d: nat, mid: seq<string>)
    requires WellFormed(lines) && Insertable(mid) && q + d <= |lines|
    requires q > 0 ==> Terminated(lines[q - 1])
    ensures WellFormed(Spliced(lines, q, d, mid))
  {
    hide Spliced, IsLine;
    var n := Spliced(lines, q, d, mid);
    forall i | 0 <= i < |n|
      ensures IsLine(n[i]) && (i + 1 < |n| ==> Apart(n[i], n[i + 1]))
    {
      SplicedAt(lines, q, d, mid, i);
      if i + 1 < |n| {
        SplicedAt(lines, q, d, mid, i + 1);
        if i + 1 < q {
          assert Apart(lines[i], lines[i + 1]);
        } else if i + 1 == q {
          assert Apart(lines[i], mid[0]);
        } else if i < q + |mid| {
          LineNotEmpty(mid[i - q]);
          ApartBehindLineFeed(mid[i - q], n[i + 1]);
        } else {
          var j := i - |mid| + d;
          assert Apart(lines[j], lines[j + 1]);
        }
      }
    }
  }

  lemma BeforeIsTerminated(lines: seq<string>, q: nat)
    requires WellFormed(lines) && 0 < q <= |lines| && (q < |lines| || Terminated(lines[|lines| - 1]))
    ensures Terminated(lines[q - 1])
  {
    if q < |lines| { assert Apart(lines[q - 1], lines[q - 1 + 1]); }
  }

  /** Where an upsert puts its line, the line is one of its own. */
  predicate Fits(lines: seq<string>, section: string, key: string) {
    match Located(lines, section, key)
    case None => false
    case Some(p) => p.index < |lines| || Terminated(lines[|lines| - 1])
  }

  /** What a line that is put in place of another, or in between, ends with. */
  function EndingAt(lines: seq<string>, p: Place, newline: string): string
    requires p.index <= p.end <= |lines|
  {
    if p.index < p.end then EndingOf(lines[p.index]) else newline
  }

  lemma FitsLocated(lines: seq<string>, section: string, key: string)
    requires Fits(lines, section, key)
    ensures Located(lines, section, key).Some?
  {
    hide Located;
  }

  /** The lines of an upserted text are the upserted lines. */
  lemma UpsertedLinesAre(text: string, section: string, key: string, value: string)
    requires IsName(key) && BreakFree(value) && Fits(Lines(text), section, key)
    ensures var lines := Lines(text);
            Located(lines, section, key).Some? &&
            var p := Located(lines, section, key).value;
            var ending := EndingAt(lines, p, Newline(text));
            && (ending == "\n" || ending == "\r\n") && WellFormed(lines)
            && Upserted(text, section, key, value).Some?
            && Lines(Upserted(text, section, key, value).value) == Spliced(lines, p.index, Replaces(p), [Entry(key, value, ending)])
  {
    hide Located, Spliced, Entry, Lines, Join, IsName, HasCrlf, WellFormed;
    var lines := Lines(text);
    var p := Located(lines, section, key).value;
    var ending := EndingAt(lines, p, Newline(text));
    var mid := [Entry(key, value, ending)];
    EntryInsertable(key, value, ending);
    JoinOfLines(text);
    BeforeIsTerminated(lines, p.index);
    SplicedWellFormed(lines, p.index, Replaces(p), mid);
    LinesOfJoin(Spliced(lines, p.index, Replaces(p), mid));
  }

  lemma EntryInsertable(key: string, value: string, ending: string)
    requires IsName(key) && BreakFree(value) && (ending == "\n" || ending == "\r\n")
    ensures Insertable([Entry(key, value, ending)])
  {
    EntryFacts(key, value, ending);
  }

  /** An upsert is a change inside the section, and replaces no line but one for the key. */
  lemma UpsertWithin(lines: seq<string>, section: string, key: string, value: string, ending: string)
    requires AllLines(lines) && IsName(section) && IsName(key) && BreakFree(value) && (ending == "\n" || ending == "\r\n")
    requires Located(lines, section, key).Some?
    ensures var p := Located(lines, section, key).value;
            && WithinSection(lines, section, p.index, Replaces(p), [Entry(key, value, ending)])
            && AllLines([Entry(key, value, ending)])
            && (p.index < p.end ==> KeyPattern(key)(lines[p.index]))
            && First(lines, p.start + 1, p.index, KeyPattern(key)) == p.index
            && p.start == First(lines, 0, |lines|, WriterHeader(section)) && p.end == First(lines, p.start + 1, |lines|, EndsSection())
  {
    hide First, WriterHeader, EndsSection, KeyPattern, Entry, IsName, IsLine;
    EntryFacts(key, value, ending);
    var p := Located(lines, section, key).value;
    FirstFound(lines, p.start + 1, p.end, KeyPattern(key));
    FirstIs(lines, p.start + 1, p.index, KeyPattern(key), p.index);
  }

  lemma LinesOf(text: string)
    ensures AllLines(Lines(text)) && WellFormed(Lines(text))
  {
    hide Lines, IsLine;
    JoinOfLines(text);
  }

  // ------------------------------------------------------------------ one upsert

  lemma ReadAfterFittingUpsert(text: string, section: string, key: string, value: string)
    requires IsName(section) && IsName(key) && BreakFree(value) && Canonical(Lines(text), section)
    requires Fits(Lines(text), section, key)
    ensures Upserted(text, section, key, value).Some?
    ensures Read(Upserted(text, section, key, value).value, section, key) == Some(Some(Cleaned(value)))
  {
    hide Lines, Canonical, IsName, BreakFree, Cleaned, ReadLines, Upserted, WithinSection, Located, Entry, AllLines, KeyPattern, WellFormed;
    var lines := Lines(text);
    UpsertedLinesAre(text, section, key, value);
    var p := Located(lines, section, key).value;
    var ending := EndingAt(lines, p, Newline(text));
    LinesOf(text);
    UpsertWithin(lines, section, key, value, ending);
    ReadWritten(lines, section, key, value, ending, p.index, Replaces(p));
  }

  /** Neither the line an upsert writes nor the one it replaces is a line for another key. */
  lemma NotForOthers(lines: seq<string>, p: Place, key: string, value: string, ending: string, k: string)
    requires IsName(key) && IsName(k) && k != key && BreakFree(value) && (ending == "\n" || ending == "\r\n")
    requires p.index <= p.end <= |lines| && (p.index < p.end ==> KeyPattern(key)(lines[p.index]))
    ensures NoneOf([Entry(key, value, ending)], KeyLine(k)) && NoneOf(lines[p.index..p.index + Replaces(p)], KeyLine(k))
  {
    hide IsName, BreakFree, KeyPattern, KeyLine, Entry, NoneOf, Replaces;
    EntryFacts(key, value, ending);
    KeyTests(Entry(key, value, ending), key, k);
    OneOf(Entry(key, value, ending), KeyLine(k));
    if p.index < p.end { KeyTests(lines[p.index], key, k); }
    ReplacedOf(lines, p, KeyLine(k));
  }

  lemma OneOf(l: string, test: LineTest)
    requires !test(l)
    ensures NoneOf([l], test)
  {
  }

  lemma ReplacedOf(lines: seq<string>, p: Place, test: LineTest)
    requires p.index <= p.end <= |lines| && (p.index < p.end ==> !test(lines[p.index]))
    ensures NoneOf(lines[p.index..p.index + Replaces(p)], test)
  {
  }

  /** Every other key, and every other section, reads as before. */
  lemma ReadOthersAfterUpsert(text: string, section: string, key: string, value: string, s: string, k: string)
    requires IsName(section) && IsName(key) && BreakFree(value) && IsName(s) && IsName(k) && (s != section || k != key)
    requires Fits(Lines(text), section, key)
    ensures Upserted(text, section, key, value).Some?
    ensures Read(Upserted(text, section, key, value).value, s, k) == Read(text, s, k)
  {
    hide Lines, IsName, BreakFree, ReadLines, Upserted, WithinSection, Located, Entry, AllLines, KeyPattern, KeyLine, WellFormed, NoneOf, Spliced, Fits, EndingAt, First, WriterHeader, EndsSection;
    var lines := Lines(text);
    UpsertedLinesAre(text, section, key, value);
    var p := Located(lines, section, key).value;
    var ending := EndingAt(lines, p, Newline(text));
    var mid := [Entry(key, value, ending)];
    LinesOf(text);
    FitsLocated(lines, section, key);
    UpsertWithin(lines, section, key, value, ending);
    if k != key { NotForOthers(lines, p, key, value, ending, k); }
    ReadElsewhere(lines, section, p.index, Replaces(p), mid, s, k);
  }

  // ------------------------------------------------------------------ the unterminated last line

  lemma NoBreakNoLine(l: string)
    requires IsLine(l) && !Terminated(l)
    ensures BreakFree(l)
  {
    BareHasNoBreak(l);
  }

  lemma LineNotEmpty(l: string)
    requires IsLine(l)
    ensures l != ""
  {
  }

  /** The last line and the entry behind it, where the text does not end in a break: one line. */
  lemma MergedLines(lines: seq<string>, entry: string)
    requires WellFormed(lines) && lines != [] && !Terminated(lines[|lines| - 1])
    requires entry != "" && IsLine(entry) && Terminated(entry) && entry[|entry| - 1] == '\n'
    requires BreakFree(Bare(entry)) && (entry == Bare(entry) + "\n" || entry == Bare(entry) + "\r\n")
    ensures var n := |lines| - 1;
            && Lines(Join(lines + [entry])) == lines[..n] + [lines[n] + entry]
            && Bare(lines[n] + entry) == lines[n] + Bare(entry)
  {
    hide Lines, IsLine, Bare, Terminated;
    var n := |lines| - 1;
    var l, m := lines[n], lines[n] + entry;
    LineNotEmpty(l);
    NoBreakNoLine(l);
    var ending := if entry == Bare(entry) + "\n" then "\n" else "\r\n";
    var content := l + Bare(entry);
    assert m == content + ending;
    LineOf(content, ending);
    assert m[0] == l[0];
    MergedWellFormed(lines, m);
    JoinMerged(lines[..n], l, entry);
    assert lines == lines[..n] + [l];
    LinesOfJoin(lines[..n] + [m]);
  }

  lemma JoinMerged(before: seq<string>, l: string, entry: string)
    ensures Join(before + [l + entry]) == Join(before + [l] + [entry])
  {
    FlattenAppend(before, l + entry);
    FlattenAppend(before, l);
    FlattenAppend(before + [l], entry);
  }

  lemma MergedWellFormed(lines: seq<string>, m: string)
    requires WellFormed(lines) && lines != [] && IsLine(m) && lines[|lines| - 1] != "" && m != "" && m[0] == lines[|lines| - 1][0]
    ensures WellFormed(lines[..|lines| - 1] + [m])
  {
    hide IsLine, Terminated;
    var n := |lines| - 1;
    var new_ := lines[..n] + [m];
    forall i | 0 <= i < |new_| - 1
      ensures Apart(new_[i], new_[i + 1])
    {
      assert Apart(lines[i], lines[i + 1]);
    }
  }

  lemma {:induction false} VisibleStays(s: string, i: nat)
    requires i < |s| && !IsSpace(s[i])
    ensures |RStrip(s)| > i
  {
    if IsSpace(s[|s| - 1]) {
      assert i < |s| - 1;
      VisibleStays(s[..|s| - 1], i);
    }
  }

  /** A header with an entry run into it is no header any more. */
  lemma MergedHeader(section: string, key: string, value: string)
    requires IsName(section) && IsName(key)
    ensures Strip(section + ":" + ("  " + key + ": " + value)) != section + ":"
  {
    var s := section + ":" + ("  " + key + ": " + value);
    var i := |section| + 3;
    assert s[i] == key[0] && s[0] == section[0];
    VisibleStays(s, i);
    RStripPrefix(s);
    StripKeepsFirst(s);
    assert RStrip(s)[0] == s[0];
  }

  lemma {:induction false} RStripPrefix(s: string)
    ensures RStrip(s) <= s
  {
    if s != "" && IsSpace(s[|s| - 1]) { RStripPrefix(s[..|s| - 1]); }
  }

  /** A line without the key's prefix does not get it from an entry run into it. */
  lemma MergedKeyLine(l: string, key: string, value: string)
    requires IsName(key) && l != "" && !(KeyPrefix(key) <= l)
    ensures !(KeyPrefix(key) <= l + ("  " + key + ": " + value))
  {
    var m, p := l + ("  " + key + ": " + value), KeyPrefix(key);
    if |l| < |p| {
      assert m[|l|] == ' ' && m[|l| + 1] == ' ';
      if |l| == 1 {
        assert m[2] == ' ' && p[2] == key[0];
      } else if |l| < 2 + |key| {
        assert p[|l|] == key[|l| - 2];
      } else {
        assert p[|l|] == ':';
      }
    } else {
      assert m[..|p|] == l[..|p|];
    }
  }

  /** Where the entry runs into the last line, the key cannot be read at all. */
  lemma MergedIsLost(lines: seq<string>, section: string, key: string, value: string, entry: string)
    requires AllLines(lines) && IsName(section) && IsName(key) && Canonical(lines, section)
    requires Located(lines, section, key).Some? && Located(lines, section, key).value.index == |lines|
    requires BreakFree(lines[|lines| - 1]) && Bare(lines[|lines| - 1] + entry) == lines[|lines| - 1] + ("  " + key + ": " + value)
    ensures var n := |lines| - 1;
            !ReadLines(lines[..n] + [lines[n] + entry], section, key).Some?
            || ReadLines(lines[..n] + [lines[n] + entry], section, key) == Some(None)
  {
    hide First, ReadLines, ReaderHeader, WriterHeader, EndsSection, KeyLine, KeyPattern, ValueIn, IsName, IsLine, BreakFree, Bare;
    var n := |lines| - 1;
    var m := lines[n] + entry;
    var merged := lines[..n] + [m];
    var p := Located(lines, section, key).value;
    LineNotEmpty(lines[n]);
    FirstFound(lines, 0, |lines|, ReaderHeader(section));
    FirstFound(lines, 0, |lines|, WriterHeader(section));
    if p.start == n {
      HeaderMerged(lines[n], m, section, key, value);
      FirstIs(merged, 0, |merged|, ReaderHeader(section), |merged|);
      ReadNothing(merged, section, key);
    } else {
      FirstIs(merged, 0, |merged|, ReaderHeader(section), p.start);
      FirstFound(lines, p.start + 1, |lines|, EndsSection());
      EndMerged(lines[n], entry);
      FirstIs(merged, p.start + 1, |merged|, EndsSection(), |merged|);
      NoKeyLines(lines, merged, p.start + 1, key, value);
      FirstIs(merged, p.start + 1, |merged|, KeyLine(key), |merged|);
      ReadIs(merged, section, key, p.start, |merged|, |merged|);
    }
  }

  lemma HeaderMerged(l: string, m: string, section: string, key: string, value: string)
    requires IsLine(l) && IsName(section) && IsName(key) && WriterHeader(section)(l) && BreakFree(l)
    requires Bare(m) == l + ("  " + key + ": " + value)
    ensures !ReaderHeader(section)(m)
  {
    WriterIsReader(l, section);
    BareOfBreakFree(l);
    MergedHeader(section, key, value);
  }

  lemma BareOfBreakFree(l: string)
    requires BreakFree(l)
    ensures Bare(l) == l
  {
    assert l != "" ==> !IsBreak(l[|l| - 1]);
  }

  lemma EndMerged(l: string, entry: string)
    requires l != "" && !EndsSection()(l)
    ensures !EndsSection()(l + entry)
  {
    EndsMeans(l);
    EndsMeans(l + entry);
    assert (l + entry)[0] == l[0];
  }

  lemma NoKeyLines(lines: seq<string>, merged: seq<string>, from: nat, key: string, value: string)
    requires IsName(key) && from < |lines| && First(lines, from, |lines|, KeyPattern(key)) == |lines|
    requires |merged| == |lines| && forall i :: 0 <= i < |lines| - 1 ==> merged[i] == lines[i]
    requires BreakFree(lines[|lines| - 1]) && lines[|lines| - 1] != ""
    requires Bare(merged[|lines| - 1]) == lines[|lines| - 1] + ("  " + key + ": " + value)
    ensures forall i :: from <= i < |merged| ==> !KeyLine(key)(merged[i])
  {
    hide First, KeyPattern, IsName, BreakFree;
    FirstFound(lines, from, |lines|, KeyPattern(key));
    var n := |lines| - 1;
    forall i | from <= i < |lines|
      ensures !KeyLine(key)(merged[i])
    {
      KeyTests(lines[i], key, key);
      if i == n {
        BareOfBreakFree(lines[n]);
        MergedKeyLine(lines[n], key, value);
      }
    }
  }

  // ------------------------------------------------------------------ an earlier header only the reader accepts

  /** The reader's section starts, and so ends, before the writer's does. */
  ghost predicate ReadsEarlier(lines: seq<string>, section: string) {
    First(lines, 0, |lines|, ReaderHeader(section)) < First(lines, 0, |lines|, WriterHeader(section)) < |lines|
  }

  /** A header the writer accepts the reader accepts too, so its own can only be that one or an earlier one. */
  lemma CanonicalOrEarlier(lines: seq<string>, section: string)
    requires AllLines(lines) && IsName(section) && First(lines, 0, |lines|, WriterHeader(section)) < |lines|
    ensures Canonical(lines, section) || ReadsEarlier(lines, section)
  {
    hide First, ReaderHeader, WriterHeader;
    var start := First(lines, 0, |lines|, WriterHeader(section));
    FirstFound(lines, 0, |lines|, WriterHeader(section));
    FirstFound(lines, 0, |lines|, ReaderHeader(section));
    WriterIsReader(lines[start], section);
  }

  lemma EarlierUnchanged(lines: seq<string>, section: string, q: nat, d: nat, mid: seq<string>, key: string)
    requires ReadsEarlier(lines, section) && WithinSection(lines, section, q, d, mid) && AllLines(lines) && AllLines(mid) && IsName(section)
    ensures ReadLines(Spliced(lines, q, d, mid), section, key) == ReadLines(lines, section, key)
  {
    hide First, ReaderHeader, WriterHeader, EndsSection, ReadLines, Spliced, NoneOf;
    NoHeaderInside(lines, section, q, d, mid, section);
    HeadersApart(lines, section, section);
    ReadBefore(lines, q, d, mid, section, key);
  }

  /** The same where the entry runs into the last line. */
  lemma EarlierUnmerged(lines: seq<string>, section: string, entry: string, key: string)
    requires ReadsEarlier(lines, section) && AllLines(lines) && IsName(section)
    ensures ReadLines(lines[..|lines| - 1] + [lines[|lines| - 1] + entry], section, key) == ReadLines(lines, section, key)
  {
    hide First, ReaderHeader, WriterHeader, EndsSection, KeyLine, ReadLines, ValueIn, IsLine;
    var n := |lines| - 1;
    var merged := lines[..n] + [lines[n] + entry];
    var h := First(lines, 0, |lines|, ReaderHeader(section));
    HeadersApart(lines, section, section);
    var e := First(lines, h + 1, |lines|, EndsSection());
    var i := First(lines, h + 1, e, KeyLine(key));
    FirstFound(lines, 0, |lines|, ReaderHeader(section));
    FirstFound(lines, h + 1, |lines|, EndsSection());
    FirstFound(lines, h + 1, e, KeyLine(key));
    FirstIs(merged, 0, |merged|, ReaderHeader(section), h);
    LineNotEmpty(lines[n]);
    EndsMeans(lines[n]);
    EndsMeans(lines[n] + entry);
    FirstIs(merged, h + 1, |merged|, EndsSection(), e);
    FirstIs(merged, h + 1, e, KeyLine(key), i);
    ReadIs(lines, section, key, h, e, i);
    ReadIs(merged, section, key, h, e, i);
  }

  lemma ReadsEarlierStays(text: string, section: string, key: string, value: string)
    requires IsName(section) && IsName(key) && BreakFree(value) && ReadsEarlier(Lines(text), section)
    ensures Upserted(text, section, key, value).Some?
    ensures Read(Upserted(text, section, key, value).value, section, key) == Read(text, section, key)
  {
    hide Lines, ReadsEarlier, IsName, BreakFree, ReadLines, Upserted, WithinSection, Entry, AllLines, KeyPattern, WellFormed, Spliced, First, EndsSection, WriterHeader, Fits, EndingAt;
    var lines := Lines(text);
    LinesOf(text);
    LocatedEarlier(lines, section, key);
    var p := Located(lines, section, key).value;
    if Fits(lines, section, key) {
      UpsertedLinesAre(text, section, key, value);
      var ending := EndingAt(lines, p, Newline(text));
      UpsertWithin(lines, section, key, value, ending);
      EarlierUnchanged(lines, section, p.index, Replaces(p), [Entry(key, value, ending)], key);
    } else {
      MergedTextIs(text, section, key, value);
      EarlierUnmerged(lines, section, Entry(key, value, Newline(text)), key);
    }
  }

  lemma LocatedEarlier(lines: seq<string>, section: string, key: string)
    requires ReadsEarlier(lines, section)
    ensures Located(lines, section, key).Some?
  {
    hide First;
  }

  // ------------------------------------------------------------------ what is read after an upsert

  /**
   * Where the reader finds the section at the writer's header, the value written is the value read,
   * cleaned as the reader cleans every value, if and only if the key is there already, another section
   * follows, or the text ends in a line break; otherwise the new line runs into the last one and is lost
   * to the reader. Where an earlier header, with blanks behind it, hides the section from the reader, it
   * reads what it read before.
   */
  lemma UpsertIsRead(text: string, section: string, key: string, value: string)
    requires IsName(section) && IsName(key) && BreakFree(value) && Located(Lines(text), section, key).Some?
    ensures Upserted(text, section, key, value).Some?
    ensures Canonical(Lines(text), section) ==>
              (Read(Upserted(text, section, key, value).value, section, key) == Some(Some(Cleaned(value))) <==> Fits(Lines(text), section, key))
    ensures !Canonical(Lines(text), section) ==>
              Read(Upserted(text, section, key, value).value, section, key) == Read(text, section, key)
    ensures Plain(value) ==> Cleaned(value) == value
  {
    hide Lines, IsName, BreakFree, Cleaned, ReadLines, First, WriterHeader, EndsSection, KeyPattern, Entry, Join, Plain, AllLines, WellFormed, Canonical, ReadsEarlier;
    if Plain(value) { PlainIsClean(value); }
    var lines := Lines(text);
    LinesOf(text);
    CanonicalOrEarlier(lines, section);
    if !Canonical(lines, section) {
      ReadsEarlierStays(text, section, key, value);
    } else if Fits(lines, section, key) {
      ReadAfterFittingUpsert(text, section, key, value);
    } else {
      UpsertRunsIn(text, section, key, value);
    }
  }

  lemma {:induction false} BreakFreeIsLine(t: string)
    requires t != "" && BreakFree(t)
    ensures IsLine(t)
  {
    if |t| > 1 { BreakFreeIsLine(t[1..]); }
  }

  lemma OneLine(t: string)
    requires IsLine(t)
    ensures Lines(t) == [t]
  {
    assert t[|t|..] == "" && t[..|t|] == t;
  }

  lemma LocatedAlone(header: string, section: string, key: string)
    requires header == section + ":" && BreakFree(header)
    ensures Located([header], section, key) == Some(Place(0, 1, 1)) && WriterHeader(section)(header)
  {
    NoCrLf(header);
    FirstIs([header], 0, 1, WriterHeader(section), 0);
  }

  lemma HeaderText(section: string)
    requires IsName(section)
    ensures var header := section + ":";
            IsLine(header) && BreakFree(header) && !Terminated(header) && Lines(header) == [header]
  {
    var header := section + ":";
    assert BreakFree(header);
    hide Lines, IsLine, BreakFree;
    BreakFreeIsLine(header);
    OneLine(header);
  }

  lemma LoneDoesNotFit(header: string, section: string, key: string)
    requires !Terminated(header) && Located([header], section, key) == Some(Place(0, 1, 1))
    ensures !Fits([header], section, key)
  {
    hide Located, Terminated;
  }

  /** A file that is only an unterminated header: any key added to it loses even the section to the reader. */
  lemma LoneHeaderIsLost(section: string, key: string, value: string)
    requires IsName(section) && IsName(key) && BreakFree(value)
    ensures Upserted(section + ":", section, key, value).Some?
    ensures Read(Upserted(section + ":", section, key, value).value, section, key) == None
  {
    hide Lines, IsName, BreakFree, IsLine, Bare, ReadLines, First, WriterHeader, ReaderHeader, Located, Newline, Upserted, Terminated, Fits, Entry;
    var header := section + ":";
    HeaderText(section);
    LocatedAlone(header, section, key);
    LoneDoesNotFit(header, section, key);
    MergedTextIs(header, section, key, value);
    var merged := header + Entry(key, value, Newline(header));
    assert [header][..0] + [merged] == [merged];
    HeaderMerged(header, merged, section, key, value);
    NoHeaderNoRead(merged, section, key);
  }

  lemma NoHeaderNoRead(l: string, section: string, key: string)
    requires !ReaderHeader(section)(l)
    ensures ReadLines([l], section, key) == None
  {
    hide First, ReaderHeader, ReadLines;
    FirstIs([l], 0, 1, ReaderHeader(section), 1);
    ReadNothing([l], section, key);
  }

  /** Concretely. */
  lemma UpsertLosesSection()
    ensures var text := "s" + ":";
            Upserted(text, "s", "k", "v").Some? && Read(Upserted(text, "s", "k", "v").value, "s", "k") == None
  {
    hide Upserted, ReadLines;
    LoneHeaderIsLost("s", "k", "v");
  }

  /** An entry that does not fit becomes part of the last line. */
  lemma MergedTextIs(text: string, section: string, key: string, value: string)
    requires IsName(section) && IsName(key) && BreakFree(value)
    requires Located(Lines(text), section, key).Some? && !Fits(Lines(text), section, key)
    ensures var lines := Lines(text);
            var n := |lines| - 1;
            var entry := Entry(key, value, Newline(text));
            && n >= 0 && Located(lines, section, key).value.index == |lines|
            && Upserted(text, section, key, value).Some?
            && Lines(Upserted(text, section, key, value).value) == lines[..n] + [lines[n] + entry]
            && BreakFree(lines[n]) && Bare(lines[n] + entry) == lines[n] + ("  " + key + ": " + value)
  {
    hide Lines, IsName, BreakFree, Cleaned, ReadLines, First, WriterHeader, EndsSection, KeyPattern, Entry, Join, HasCrlf, IsLine, Bare, Located;
    var lines := Lines(text);
    var p := Located(lines, section, key).value;
    var entry := Entry(key, value, Newline(text));
    LinesOf(text);
    EntryFacts(key, value, Newline(text));
    ContentBreakFree(key, value);
    EntryEnds(key, value, Newline(text));
    assert Spliced(lines, p.index, 0, [entry]) == lines + [entry];
    MergedLines(lines, entry);
    NoBreakNoLine(lines[|lines| - 1]);
  }

  lemma UpsertRunsIn(text: string, section: string, key: string, value: string)
    requires IsName(section) && IsName(key) && BreakFree(value) && Canonical(Lines(text), section)
    requires Located(Lines(text), section, key).Some? && !Fits(Lines(text), section, key)
    ensures Upserted(text, section, key, value).Some?
    ensures Read(Upserted(text, section, key, value).value, section, key) != Some(Some(Cleaned(value)))
  {
    hide Lines, IsName, BreakFree, Cleaned, ReadLines, Entry, Canonical, IsLine, Bare, Upserted, Fits, Located, WellFormed;
    LinesOf(text);
    MergedTextIs(text, section, key, value);
    MergedIsLost(Lines(text), section, key, value, Entry(key, value, Newline(text)));
  }

  lemma EntryEnds(key: string, value: string, ending: string)
    requires ending == "\n" || ending == "\r\n"
    ensures var entry := Entry(key, value, ending);
            entry != "" && entry == ("  " + key + ": " + value) + ending && entry[|entry| - 1] == '\n'
  {
  }
}
