/**
 * Editing a YAML file line by line, as the dashboard's SettingsManager does, and reading it back the
 * way deploy/scripts/runtime_config.py does.
 */
module SettingsText {
  import opened Common
  import opened Decimal
  import opened TextLines

  // ------------------------------------------------------------------ what the lines are

  /** A section or key name: not empty, no blanks, no colon, no hash mark. */
  predicate IsName(s: string) {
    s != "" && forall i :: 0 <= i < |s| ==> !IsSpace(s[i]) && !IsBreak(s[i]) && s[i] != ':' && s[i] != '#'
  }

  predicate BreakFree(s: string) { forall i :: 0 <= i < |s| ==> !IsBreak(s[i]) }

  /** rstrip("\r\n") */
  function RStripCrLf(s: string): string {
    if s != "" && (s[|s| - 1] == '\r' || s[|s| - 1] == '\n') then RStripCrLf(s[..|s| - 1]) else s
  }

  type LineTest = string -> bool

  /** The writer's section header. */
  function WriterHeader(section: string): LineTest { l => RStripCrLf(l) == section + ":" }

  /** The reader's section header: blanks may follow it. */
  function ReaderHeader(section: string): LineTest {
    l => Strip(Bare(l)) == section + ":" && (Bare(l) == "" || !IsSpace(Bare(l)[0]))
  }

  /** A line that ends the section before it. */
  function EndsSection(): LineTest { l => Strip(l) != "" && l != "" && !IsSpace(l[0]) && Strip(l)[0] != '#' }

  predicate BlanksThenColon(s: string) { s != "" && (s[0] == ':' || (IsSpace(s[0]) && BlanksThenColon(s[1..]))) }

  /** The writer's pattern: two blanks, the key, any blanks, a colon. */
  function KeyPattern(key: string): LineTest {
    l => "  " + key <= l && BlanksThenColon(l[2 + |key|..])
  }

  function KeyPrefix(key: string): string { "  " + key + ":" }

  /** The reader's test of a line. */
  function KeyLine(key: string): LineTest { l => KeyPrefix(key) <= Bare(l) }

  /** The first line in `from..bound` that passes the test, or `bound`. */
  function First(lines: seq<string>, from: nat, bound: nat, p: LineTest): (r: nat)
    requires from <= bound <= |lines|
    ensures from <= r <= bound
    decreases bound - from
  {
    if from == bound || p(lines[from]) then from else First(lines, from + 1, bound, p)
  }

  lemma {:induction false} FirstFound(lines: seq<string>, from: nat, bound: nat, p: LineTest)
    requires from <= bound <= |lines|
    ensures var r := First(lines, from, bound, p);
            (r < bound ==> p(lines[r])) && forall i :: from <= i < r ==> !p(lines[i])
    decreases bound - from
  {
    if from < bound && !p(lines[from]) { FirstFound(lines, from + 1, bound, p); }
  }

  lemma {:induction false} FirstIs(lines: seq<string>, from: nat, bound: nat, p: LineTest, r: nat)
    requires from <= r <= bound <= |lines|
    requires r < bound ==> p(lines[r])
    requires forall i :: from <= i < r ==> !p(lines[i])
    ensures First(lines, from, bound, p) == r
    decreases bound - from
  {
    if from < r { FirstIs(lines, from + 1, bound, p, r); }
  }

  // ------------------------------------------------------------------ the writer, on lines

  datatype Place = Place(start: nat, end: nat, index: nat)

  /** The section's header, its end, and the first line for the key in between, or the end. */
  function Located(lines: seq<string>, section: string, key: string): (r: Option<Place>)
    ensures r.Some? ==> r.value.start < r.value.index <= r.value.end <= |lines|
  {
    var start := First(lines, 0, |lines|, WriterHeader(section));
    if start == |lines| then None
    else
      var end := First(lines, start + 1, |lines|, EndsSection());
      Some(Place(start, end, First(lines, start + 1, end, KeyPattern(key))))
  }

  function EndingOf(l: string): string { if |l| >= 2 && l[|l| - 2..] == "\r\n" then "\r\n" else "\n" }

  /** "\r\n" in text */
  predicate HasCrlf(t: string) { exists i :: 0 <= i < |t| - 1 && t[i] == '\r' && t[i + 1] == '\n' }

  function Newline(t: string): string { if HasCrlf(t) then "\r\n" else "\n" }

  function Entry(key: string, value: string, ending: string): string { "  " + key + ": " + value + ending }

  /** `lines` with `d` lines at `q` replaced by `mid`. */
  function Spliced(lines: seq<string>, q: nat, d: nat, mid: seq<string>): (r: seq<string>)
    requires q + d <= |lines|
    ensures |r| == |lines| + |mid| - d
  {
    lines[..q] + mid + lines[q + d..]
  }

  /** Where an upsert puts its line, and how many lines it replaces. */
  function Replaces(p: Place): nat { if p.index < p.end then 1 else 0 }

  function UpsertedLines(lines: seq<string>, section: string, key: string, value: string, newline: string): Option<seq<string>> {
    match Located(lines, section, key)
    case None => None
    case Some(p) =>
      var ending := if p.index < p.end then EndingOf(lines[p.index]) else newline;
      Some(Spliced(lines, p.index, Replaces(p), [Entry(key, value, ending)]))
  }

  /** _upsert_section_scalar; nothing where the section is missing. */
  function Upserted(text: string, section: string, key: string, value: string): Option<string> {
    match UpsertedLines(Lines(text), section, key, value, Newline(text))
    case None => None
    case Some(lines) => Some(Join(lines))
  }

  /** _replace_section_scalar: refuses a missing field too. */
  function Replaced(text: string, section: string, key: string, value: string): Option<string> {
    match Located(Lines(text), section, key)
    case None => None
    case Some(p) => if p.index < p.end then Upserted(text, section, key, value) else None
  }

  // ------------------------------------------------------------------ the mapping block

  datatype Mapping = Mapping(p25: nat, brandmeister: nat)

  const ROUTING := "routing"
  const MAPPINGS := "talkgroupMappings"

  /** Blanks in front, counted as the writer does. */
  function IndentOf(l: string): nat { if l != "" && l[0] == ' ' then 1 + IndentOf(l[1..]) else 0 }

  /** A line that ends the block below a key indented by two. */
  function EndsBlock(): LineTest { l => Strip(l) == "" || IndentOf(l) <= 2 }

  function PairLines(m: Mapping, newline: string): seq<string> {
    ["    - p25: " + Numeral(m.p25) + newline, "      brandmeister: " + Numeral(m.brandmeister) + newline]
  }

  function AllPairs(mappings: seq<Mapping>, newline: string): seq<string> {
    if mappings == [] then [] else AllPairs(mappings[..|mappings| - 1], newline) + PairLines(mappings[|mappings| - 1], newline)
  }

  function BlockLines(mappings: seq<Mapping>, newline: string): seq<string> {
    ["  " + MAPPINGS + ":" + newline] + AllPairs(mappings, newline)
  }

  /** Where the block behind the key ends. */
  function BlockEnd(lines: seq<string>, p: Place): (r: nat)
    requires p.index < p.end <= |lines|
    ensures p.index < r <= p.end
  {
    First(lines, p.index + 1, p.end, EndsBlock())
  }

  function BlockReplacedLines(lines: seq<string>, mappings: seq<Mapping>, newline: string): Option<seq<string>> {
    match Located(lines, ROUTING, MAPPINGS)
    case None => None
    case Some(p) =>
      if p.index == p.end then None
      else Some(Spliced(lines, p.index, BlockEnd(lines, p) - p.index, BlockLines(mappings, newline)))
  }

  /** _replace_mapping_block; nothing where the section or the key is missing. */
  function BlockReplaced(text: string, mappings: seq<Mapping>): Option<string> {
    match BlockReplacedLines(Lines(text), mappings, Newline(text))
    case None => None
    case Some(lines) => Some(Join(lines))
  }

  // ------------------------------------------------------------------ the reader, on lines

  function BeforeHash(s: string): string {
    if s == "" || s[0] == '#' then "" else [s[0]] + BeforeHash(s[1..])
  }

  function Unquoted(s: string): string {
    if |s| >= 2 && s[0] == s[|s| - 1] && (s[0] == '"' || s[0] == '\'') then s[1..|s| - 1] else s
  }

  /** What the reader makes of the text behind a key. */
  function Cleaned(s: string): string { Unquoted(Strip(BeforeHash(s))) }

  /** _section_scalar: nothing where the section is missing, else the value if the key is there. */
  function ReadLines(lines: seq<string>, section: string, key: string): Option<Option<string>> {
    var start := First(lines, 0, |lines|, ReaderHeader(section));
    if start == |lines| then None
    else
      var end := First(lines, start + 1, |lines|, EndsSection());
      var i := First(lines, start + 1, end, KeyLine(key));
      Some(if i == end then None else Some(ValueIn(lines[i], key)))
  }

  /** The value on a line for the key. */
  function ValueIn(l: string, key: string): string {
    if KeyLine(key)(l) then Cleaned(Bare(l)[|KeyPrefix(key)|..]) else ""
  }

  function Read(text: string, section: string, key: string): Option<Option<string>> { ReadLines(Lines(text), section, key) }

  // ------------------------------------------------------------------ the loops

  /** One step of a search. */
  lemma FirstStep(lines: seq<string>, from: nat, bound: nat, p: LineTest)
    requires from <= bound <= |lines|
    ensures from == bound ==> First(lines, from, bound, p) == bound
    ensures from < bound ==> First(lines, from, bound, p) == if p(lines[from]) then from else First(lines, from + 1, bound, p)
  {
  }

  method FindHeader(lines: seq<string>, section: string) returns (start: nat)
    ensures start == First(lines, 0, |lines|, WriterHeader(section))
  {
    hide First;
    ghost var p := WriterHeader(section);
    start := 0;
    FirstStep(lines, 0, |lines|, p);
    while start < |lines|
      invariant 0 <= start <= |lines| && First(lines, 0, |lines|, p) == First(lines, start, |lines|, p)
    {
      FirstStep(lines, start, |lines|, p);
      if RStripCrLf(lines[start]) == section + ":" { return; }
      start := start + 1;
    }
    FirstStep(lines, start, |lines|, p);
  }

  method FindEnd(lines: seq<string>, from: nat) returns (end: nat)
    requires from <= |lines|
    ensures end == First(lines, from, |lines|, EndsSection())
  {
    hide First;
    ghost var p := EndsSection();
    end := from;
    while end < |lines|
      invariant from <= end <= |lines| && First(lines, from, |lines|, p) == First(lines, end, |lines|, p)
    {
      FirstStep(lines, end, |lines|, p);
      StripNotEmpty(lines[end]);
      var stripped := Strip(lines[end]);
      if stripped != "" && !IsSpace(lines[end][0]) && stripped[0] != '#' { return; }
      end := end + 1;
    }
    FirstStep(lines, end, |lines|, p);
  }

  lemma StripNotEmpty(l: string)
    ensures Strip(l) != "" ==> l != ""
  {
  }

  method FindKey(lines: seq<string>, from: nat, end: nat, key: string) returns (index: nat)
    requires from <= end <= |lines|
    ensures index == First(lines, from, end, KeyPattern(key))
  {
    hide First;
    ghost var p := KeyPattern(key);
    index := from;
    while index < end
      invariant from <= index <= end && First(lines, from, end, p) == First(lines, index, end, p)
    {
      FirstStep(lines, index, end, p);
      if "  " + key <= lines[index] && BlanksThenColon(lines[index][2 + |key|..]) { return; }
      index := index + 1;
    }
    FirstStep(lines, index, end, p);
  }

  method SectionBounds(lines: seq<string>, section: string) returns (bounds: Option<(nat, nat)>)
    ensures var start := First(lines, 0, |lines|, WriterHeader(section));
            bounds == if start == |lines| then None else Some((start, First(lines, start + 1, |lines|, EndsSection())))
  {
    var start := FindHeader(lines, section);
    if start == |lines| { return None; }
    var end := FindEnd(lines, start + 1);
    return Some((start, end));
  }

  lemma UpdateIsSplice(lines: seq<string>, i: nat, l: string)
    requires i < |lines|
    ensures lines[i := l] == Spliced(lines, i, 1, [l])
  {
  }

  lemma InsertIsSplice(lines: seq<string>, i: nat, l: string)
    requires i <= |lines|
    ensures lines[..i] + [l] + lines[i..] == Spliced(lines, i, 0, [l])
  {
  }

  method UpsertSectionScalar(text: string, section: string, key: string, value: string) returns (r: Option<string>)
    ensures r == Upserted(text, section, key, value)
  {
    hide WriterHeader, EndsSection, KeyPattern, First, Lines, Join, HasCrlf, Spliced, Entry, EndingOf, Newline;
    var lines := Lines(text);
    var bounds := SectionBounds(lines, section);
    if bounds.None? { return None; }
    var (start, end) := bounds.value;
    var index := FindKey(lines, start + 1, end, key);
    if index < end {
      UpdateIsSplice(lines, index, Entry(key, value, EndingOf(lines[index])));
      lines := lines[index := Entry(key, value, EndingOf(lines[index]))];
      return Some(Join(lines));
    }
    var newline := Newline(text);
    InsertIsSplice(lines, end, Entry(key, value, newline));
    lines := lines[..end] + [Entry(key, value, newline)] + lines[end..];
    return Some(Join(lines));
  }

  method ReplaceSectionScalar(text: string, section: string, key: string, value: string) returns (r: Option<string>)
    ensures r == Replaced(text, section, key, value)
  {
    hide WriterHeader, EndsSection, KeyPattern, First, Lines, Join, HasCrlf, Spliced, Entry;
    var lines := Lines(text);
    var bounds := SectionBounds(lines, section);
    if bounds.None? { return None; }
    var (start, end) := bounds.value;
    var index := FindKey(lines, start + 1, end, key);
    if index == end { return None; }
    UpdateIsSplice(lines, index, Entry(key, value, EndingOf(lines[index])));
    lines := lines[index := Entry(key, value, EndingOf(lines[index]))];
    return Some(Join(lines));
  }

  method ReplaceMappingBlock(text: string, mappings: seq<Mapping>) returns (r: Option<string>)
    ensures r == BlockReplaced(text, mappings)
  {
    hide WriterHeader, EndsSection, KeyPattern, EndsBlock, First, Lines, Join, HasCrlf, Spliced;
    var lines := Lines(text);
    var bounds := SectionBounds(lines, ROUTING);
    if bounds.None? { return None; }
    var (start, sectionEnd) := bounds.value;
    var keyIndex := FindKey(lines, start + 1, sectionEnd, MAPPINGS);
    if keyIndex == sectionEnd { return None; }
    var blockEnd := FindBlockEnd(lines, keyIndex + 1, sectionEnd);
    var newline := Newline(text);
    var replacement := ["  " + MAPPINGS + ":" + newline];
    for i := 0 to |mappings|
      invariant replacement == ["  " + MAPPINGS + ":" + newline] + AllPairs(mappings[..i], newline)
    {
      assert mappings[..i + 1][..i] == mappings[..i];
      replacement := replacement + PairLines(mappings[i], newline);
    }
    assert mappings[..|mappings|] == mappings;
    return Some(Join(Spliced(lines, keyIndex, blockEnd - keyIndex, replacement)));
  }

  method FindBlockEnd(lines: seq<string>, from: nat, sectionEnd: nat) returns (blockEnd: nat)
    requires from <= sectionEnd <= |lines|
    ensures blockEnd == First(lines, from, sectionEnd, EndsBlock())
  {
    hide First;
    ghost var p := EndsBlock();
    blockEnd := from;
    while blockEnd < sectionEnd
      invariant from <= blockEnd <= sectionEnd && First(lines, from, sectionEnd, p) == First(lines, blockEnd, sectionEnd, p)
    {
      FirstStep(lines, blockEnd, sectionEnd, p);
      var line := lines[blockEnd];
      if Strip(line) == "" { return; }
      if IndentOf(line) <= 2 { return; }
      blockEnd := blockEnd + 1;
    }
    FirstStep(lines, blockEnd, sectionEnd, p);
  }

  /** splitlines() */
  function BareLines(lines: seq<string>): (r: seq<string>)
    ensures |r| == |lines| && forall i :: 0 <= i < |r| ==> r[i] == Bare(lines[i])
  {
    seq(|lines|, i requires 0 <= i < |lines| => Bare(lines[i]))
  }

  /** Whether a line ends a section shows without its break too. */
  lemma EndsLikeBare(l: string)
    ensures EndsSection()(l) <==> Strip(Bare(l)) != "" && (Bare(l) == "" || !IsSpace(Bare(l)[0])) && Strip(Bare(l))[0] != '#'
  {
    StripBare(l);
    StripNotEmpty(l);
    StripNotEmpty(Bare(l));
  }

  method FindReaderHeader(lines: seq<string>, section: string, ghost all: seq<string>) returns (start: nat)
    requires lines == BareLines(all)
    ensures start == First(all, 0, |all|, ReaderHeader(section))
  {
    hide First;
    ghost var p := ReaderHeader(section);
    start := 0;
    while start < |lines|
      invariant 0 <= start <= |lines| && First(all, 0, |all|, p) == First(all, start, |all|, p)
    {
      FirstStep(all, start, |all|, p);
      if Strip(lines[start]) == section + ":" && (lines[start] == "" || !IsSpace(lines[start][0])) { return; }
      start := start + 1;
    }
    FirstStep(all, start, |all|, p);
  }

  /** The lines from `from` to the end of the section, without their breaks. */
  function Body(lines: seq<string>, from: nat): seq<string>
    requires from <= |lines|
  {
    BareLines(lines)[from..First(lines, from, |lines|, EndsSection())]
  }

  /** What the reader takes for the section's lines; nothing where it is missing. */
  function SectionBody(lines: seq<string>, section: string): Option<seq<string>> {
    var start := First(lines, 0, |lines|, ReaderHeader(section));
    if start == |lines| then None else Some(Body(lines, start + 1))
  }

  method CollectSection(lines: seq<string>, from: nat, ghost all: seq<string>) returns (result: seq<string>)
    requires lines == BareLines(all) && from <= |all|
    ensures result == Body(all, from)
  {
    hide First, EndsSection, BareLines;
    ghost var p := EndsSection();
    result := [];
    var index := from;
    while index < |lines|
      invariant from <= index <= |lines| && result == lines[from..index]
      invariant First(all, from, |all|, p) == First(all, index, |all|, p)
    {
      FirstStep(all, index, |all|, p);
      EndsLikeBare(all[index]);
      var line := lines[index];
      var stripped := Strip(line);
      if stripped != "" && (line == "" || !IsSpace(line[0])) && stripped[0] != '#' { return; }
      OneLineMore(lines, from, index);
      result := result + [line];
      index := index + 1;
    }
    FirstStep(all, index, |all|, p);
  }

  lemma OneLineMore(lines: seq<string>, from: nat, index: nat)
    requires from <= index < |lines|
    ensures lines[from..index] + [lines[index]] == lines[from..index + 1]
  {
  }

  /** _section_lines */
  method SectionLines(text: string, section: string) returns (r: Option<seq<string>>)
    ensures r == SectionBody(Lines(text), section)
  {
    hide Lines, First, EndsSection, ReaderHeader, Body, BareLines;
    ghost var all := Lines(text);
    var lines := BareLines(Lines(text));
    var start := FindReaderHeader(lines, section, all);
    if start == |lines| { return None; }
    var result := CollectSection(lines, start + 1, all);
    return Some(result);
  }

  method SectionScalar(text: string, section: string, key: string) returns (r: Option<Option<string>>)
    ensures r == Read(text, section, key)
  {
    hide Lines, First, EndsSection, ReaderHeader, Cleaned, Bare, BareLines;
    var body := SectionLines(text, section);
    if body.None? { return None; }
    ghost var all := Lines(text);
    ghost var from := First(all, 0, |all|, ReaderHeader(section)) + 1;
    ghost var end := First(all, from, |all|, EndsSection());
    ghost var p := KeyLine(key);
    var i := 0;
    while i < |body.value|
      invariant 0 <= i <= |body.value| && First(all, from, end, p) == First(all, from + i, end, p)
    {
      FirstStep(all, from + i, end, p);
      assert body.value[i] == BareLines(all)[from + i] == Bare(all[from + i]);
      if KeyPrefix(key) <= body.value[i] { return Some(Some(Cleaned(body.value[i][|KeyPrefix(key)|..]))); }
      i := i + 1;
    }
    FirstStep(all, from + i, end, p);
    return Some(None);
  }
}
