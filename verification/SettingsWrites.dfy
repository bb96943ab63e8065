/**
 * Several settings edits in a row, as SettingsManager.update makes them: the last one for a field is
 * the one that is read, and repeating an edit with another value leaves no trace of the first.
 */
module SettingsWrites {
  import opened Common
  import opened TextLines
  import opened SettingsText
  import opened SettingsLaws
  import opened SettingsEdits

  // ------------------------------------------------------------------ what an edit preserves

  /** A text that ends in a line break. */
  ghost predicate Closed(lines: seq<string>) { lines != [] && Terminated(lines[|lines| - 1]) }

  lemma ClosedFits(lines: seq<string>, section: string, key: string)
    requires Closed(lines) && Canonical(lines, section)
    ensures Fits(lines, section, key)
  {
    hide First;
  }

  /** A change inside a section keeps every header where the reader and the writer both find it. */
  lemma StaysCanonical(lines: seq<string>, section: string, q: nat, d: nat, mid: seq<string>, s: string)
    requires WithinSection(lines, section, q, d, mid) && AllLines(lines) && AllLines(mid) && IsName(s) && Canonical(lines, s)
    ensures Canonical(Spliced(lines, q, d, mid), s)
  {
    hide First, Spliced, ReaderHeader, WriterHeader, EndsSection, NoneOf, IsName, IsLine;
    NoHeaderInside(lines, section, q, d, mid, s);
    SearchAcross(lines, q, d, mid, 0, |lines|, ReaderHeader(s));
    SearchAcross(lines, q, d, mid, 0, |lines|, WriterHeader(s));
  }

  lemma StaysClosed(lines: seq<string>, q: nat, d: nat, mid: seq<string>)
    requires q + d <= |lines| && Closed(lines) && mid != [] && Terminated(mid[|mid| - 1])
    ensures Closed(Spliced(lines, q, d, mid))
  {
    hide Spliced, Terminated;
    var n := Spliced(lines, q, d, mid);
    SplicedAt(lines, q, d, mid, |n| - 1);
  }

  lemma UpsertPreserves(text: string, section: string, key: string, value: string, s: string)
    requires IsName(section) && IsName(key) && BreakFree(value) && IsName(s)
    requires Closed(Lines(text)) && Canonical(Lines(text), section) && Canonical(Lines(text), s)
    ensures Upserted(text, section, key, value).Some?
    ensures Closed(Lines(Upserted(text, section, key, value).value)) && Canonical(Lines(Upserted(text, section, key, value).value), s)
  {
    hide Lines, IsName, BreakFree, Upserted, WithinSection, Located, Entry, AllLines, KeyPattern, WellFormed, Canonical, Closed, Spliced, Fits, EndingAt;
    var lines := Lines(text);
    ClosedFits(lines, section, key);
    FitsLocated(lines, section, key);
    UpsertedLinesAre(text, section, key, value);
    var p := Located(lines, section, key).value;
    var ending := EndingAt(lines, p, Newline(text));
    LinesOf(text);
    UpsertWithin(lines, section, key, value, ending);
    EntryFacts(key, value, ending);
    StaysCanonical(lines, section, p.index, Replaces(p), [Entry(key, value, ending)], s);
    StaysClosed(lines, p.index, Replaces(p), [Entry(key, value, ending)]);
  }

  // ------------------------------------------------------------------ a list of edits

  datatype Edit = Edit(section: string, key: string, value: string)

  function EditAll(text: string, edits: seq<Edit>): Option<string> {
    if edits == [] then Some(text)
    else
      match EditAll(text, edits[..|edits| - 1])
      case None => None
      case Some(t) => Upserted(t, edits[|edits| - 1].section, edits[|edits| - 1].key, edits[|edits| - 1].value)
  }

  /** The value the list of edits gives a field last. */
  function LastValue(edits: seq<Edit>, section: string, key: string): Option<string> {
    if edits == [] then None
    else
      var e := edits[|edits| - 1];
      if e.section == section && e.key == key then Some(e.value) else LastValue(edits[..|edits| - 1], section, key)
  }

  /** Edits of sections that are there, by names and values that keep to their line. */
  ghost predicate Editable(text: string, edits: seq<Edit>) {
    && Closed(Lines(text))
    && forall i :: 0 <= i < |edits| ==>
      IsName(edits[i].section) && IsName(edits[i].key) && BreakFree(edits[i].value) && Canonical(Lines(text), edits[i].section)
  }

  /** An edited text keeps ending in a break and keeps every header. */
  lemma {:induction false} EditsPreserve(text: string, edits: seq<Edit>, s: string)
    requires Editable(text, edits) && IsName(s) && Canonical(Lines(text), s)
    ensures EditAll(text, edits).Some?
    ensures Closed(Lines(EditAll(text, edits).value)) && Canonical(Lines(EditAll(text, edits).value), s)
  {
    hide Lines, IsName, BreakFree, Upserted, Canonical, Closed;
    if edits != [] {
      var n := |edits| - 1;
      var e := edits[n];
      EditsPreserve(text, edits[..n], s);
      EditsPreserve(text, edits[..n], e.section);
      UpsertPreserves(EditAll(text, edits[..n]).value, e.section, e.key, e.value, s);
    }
  }

  /**
   * After any list of edits, every field reads as the last of its edits left it, and every field
   * that was not edited reads as in the original text.
   */
  lemma {:induction false} LastEditIsRead(text: string, edits: seq<Edit>, section: string, key: string)
    requires Editable(text, edits) && IsName(section) && IsName(key)
    ensures EditAll(text, edits).Some?
    ensures Read(EditAll(text, edits).value, section, key) ==
            match LastValue(edits, section, key)
            case Some(v) => Some(Some(Cleaned(v)))
            case None => Read(text, section, key)
  {
    hide Lines, IsName, BreakFree, Upserted, Canonical, Closed, Read, Cleaned, Fits;
    if edits != [] {
      var n := |edits| - 1;
      var e := edits[n];
      LastEditIsRead(text, edits[..n], section, key);
      EditsPreserve(text, edits[..n], e.section);
      var t := EditAll(text, edits[..n]).value;
      ClosedFits(Lines(t), e.section, e.key);
      if e.section == section && e.key == key {
        ReadAfterFittingUpsert(t, section, key, e.value);
      } else {
        ReadOthersAfterUpsert(t, e.section, e.key, e.value, section, key);
      }
    }
  }

  // ------------------------------------------------------------------ writing twice

  /** Where the writer finds its own entry. */
  lemma LocatedAgain(lines: seq<string>, section: string, key: string, q: nat, d: nat, mid: seq<string>)
    requires AllLines(lines) && AllLines(mid) && IsName(section) && IsName(key) && mid != []
    requires WithinSection(lines, section, q, d, mid) && KeyPattern(key)(mid[0])
    requires First(lines, First(lines, 0, |lines|, WriterHeader(section)) + 1, q, KeyPattern(key)) == q
    ensures var start := First(lines, 0, |lines|, WriterHeader(section));
            var end := First(lines, start + 1, |lines|, EndsSection());
            Located(Spliced(lines, q, d, mid), section, key) == Some(Place(start, end + |mid| - d, q))
  {
    hide First, Spliced, ReaderHeader, WriterHeader, EndsSection, NoneOf, IsName, IsLine, KeyPattern;
    var n := Spliced(lines, q, d, mid);
    var start := First(lines, 0, |lines|, WriterHeader(section));
    var end := First(lines, start + 1, |lines|, EndsSection());
    NoHeaderInside(lines, section, q, d, mid, section);
    SearchAcross(lines, q, d, mid, 0, |lines|, WriterHeader(section));
    SearchAcross(lines, q, d, mid, start + 1, |lines|, EndsSection());
    SearchBefore(lines, q, d, mid, start + 1, q, KeyPattern(key));
    FirstFound(n, start + 1, q, KeyPattern(key));
    SplicedAt(lines, q, d, mid, q);
    FirstIs(n, start + 1, end + |mid| - d, KeyPattern(key), q);
  }

  lemma SplicedTwice(lines: seq<string>, q: nat, d: nat, a: seq<string>, b: seq<string>)
    requires q + d <= |lines|
    ensures Spliced(Spliced(lines, q, d, a), q, |a|, b) == Spliced(lines, q, d, b)
  {
    var n := Spliced(lines, q, d, a);
    assert n[..q] == lines[..q] && n[q + |a|..] == lines[q + d..];
  }

  /** The lines after an upsert, and where the next upsert of the same key goes. */
  lemma UpsertedOnce(text: string, section: string, key: string, value: string)
    requires IsName(section) && IsName(key) && BreakFree(value) && Fits(Lines(text), section, key)
    ensures var lines := Lines(text);
            Located(lines, section, key).Some? && Upserted(text, section, key, value).Some? &&
            var p := Located(lines, section, key).value;
            var ending := EndingAt(lines, p, Newline(text));
            var n := Spliced(lines, p.index, Replaces(p), [Entry(key, value, ending)]);
            && (ending == "\n" || ending == "\r\n")
            && Upserted(text, section, key, value).value == Join(n) && Lines(Join(n)) == n
            && Located(n, section, key).Some? && Located(n, section, key).value.index == p.index < Located(n, section, key).value.end
            && n[p.index] == Entry(key, value, ending) && EndingOf(n[p.index]) == ending
  {
    hide Lines, IsName, BreakFree, WithinSection, Entry, AllLines, KeyPattern, WellFormed, Spliced, Join, First, WriterHeader, EndsSection, HasCrlf, EndingOf;
    var lines := Lines(text);
    UpsertedLinesAre(text, section, key, value);
    var p := Located(lines, section, key).value;
    var ending := EndingAt(lines, p, Newline(text));
    var mid := [Entry(key, value, ending)];
    LinesOf(text);
    UpsertWithin(lines, section, key, value, ending);
    EntryFacts(key, value, ending);
    LocatedAgain(lines, section, key, p.index, Replaces(p), mid);
    SplicedAt(lines, p.index, Replaces(p), mid, p.index);
  }

  /** Upserting twice is upserting the second value alone, down to the last character. */
  lemma LastUpsertWins(text: string, section: string, key: string, first: string, second: string)
    requires IsName(section) && IsName(key) && BreakFree(first) && BreakFree(second) && Fits(Lines(text), section, key)
    ensures Upserted(text, section, key, first).Some?
    ensures Upserted(Upserted(text, section, key, first).value, section, key, second) == Upserted(text, section, key, second)
  {
    hide Lines, IsName, BreakFree, Entry, Spliced, Join, Located, Fits, HasCrlf, EndingOf;
    var lines := Lines(text);
    UpsertedOnce(text, section, key, first);
    UpsertedOnce(text, section, key, second);
    var p := Located(lines, section, key).value;
    var ending := EndingAt(lines, p, Newline(text));
    SplicedTwice(lines, p.index, Replaces(p), [Entry(key, first, ending)], [Entry(key, second, ending)]);
  }
}
