/** Python's line and whitespace handling of str: splitlines, strip and their laws. */
module TextLines {
  import opened Common

  /** The characters str.splitlines breaks at. */
  predicate IsBreak(c: char) {
    var n := c as int;
    0x0A <= n <= 0x0D || 0x1C <= n <= 0x1E || n == 0x85 || n == 0x2028 || n == 0x2029
  }

  predicate IsSpace(c: char) { IsSpaceCode(c as int) }

  // ------------------------------------------------------------------ lines

  /** Length of the first line, its break included; a carriage return and line feed break once. */
  function LineLength(t: string): (n: nat)
    requires t != ""
    ensures 1 <= n <= |t|
  {
    if IsBreak(t[0]) then if t[0] == '\r' && |t| > 1 && t[1] == '\n' then 2 else 1
    else if |t| == 1 then 1
    else 1 + LineLength(t[1..])
  }

  /** splitlines(keepends=True) */
  function Lines(t: string): seq<string>
    decreases |t|
  {
    if t == "" then [] else [t[..LineLength(t)]] + Lines(t[LineLength(t)..])
  }

  /** "".join */
  function Join(lines: seq<string>): string { Flatten(lines) }

  predicate IsLine(l: string) { l != "" && LineLength(l) == |l| }

  predicate Terminated(l: string) { l != "" && IsBreak(l[|l| - 1]) }

  /** Text `b` behind the line `a` starts a line of its own. */
  predicate Apart(a: string, b: string) { Terminated(a) && !(a[|a| - 1] == '\r' && b != "" && b[0] == '\n') }

  ghost predicate WellFormed(lines: seq<string>) {
    && (forall i :: 0 <= i < |lines| ==> IsLine(lines[i]))
    && forall i :: 0 <= i < |lines| - 1 ==> Apart(lines[i], lines[i + 1])
  }

  lemma {:induction false} LineInFront(l: string, rest: string)
    requires IsLine(l) && Apart(l, rest)
    ensures LineLength(l + rest) == |l|
  {
    if !IsBreak(l[0]) {
      assert IsLine(l[1..]) && Apart(l[1..], rest);
      LineInFront(l[1..], rest);
      assert (l + rest)[1..] == l[1..] + rest;
    }
  }

  lemma JoinFirst(lines: seq<string>)
    requires lines != [] && lines[0] != ""
    ensures Join(lines) != "" && Join(lines)[0] == lines[0][0]
  {
  }

  /** Well-formed lines come back from their text. */
  lemma {:induction false} LinesOfJoin(lines: seq<string>)
    requires WellFormed(lines)
    ensures Lines(Join(lines)) == lines
  {
    if lines != [] {
      var l, rest := lines[0], Join(lines[1..]);
      LinesOfJoin(lines[1..]);
      assert Join(lines) == l + rest;
      if |lines| == 1 {
        assert l + rest == l && Lines(l) == [l] + Lines("");
      } else {
        assert Apart(l, lines[1]) && IsLine(lines[1]);
        JoinFirst(lines[1..]);
        LineInFront(l, rest);
        assert (l + rest)[..|l|] == l && (l + rest)[|l|..] == rest;
      }
    }
  }

  lemma {:induction false} FirstLine(t: string)
    requires t != ""
    ensures IsLine(t[..LineLength(t)])
    ensures LineLength(t) < |t| ==> Apart(t[..LineLength(t)], t[LineLength(t)..])
  {
    if !IsBreak(t[0]) && |t| > 1 {
      FirstLine(t[1..]);
      var n := LineLength(t);
      assert t[..n][1..] == t[1..][..n - 1] && t[n..] == t[1..][n - 1..];
    }
  }

  /** A text is its lines, and they are well formed. */
  lemma {:induction false} JoinOfLines(t: string)
    ensures Join(Lines(t)) == t && WellFormed(Lines(t))
    decreases |t|
  {
    if t != "" {
      var n := LineLength(t);
      FirstLine(t);
      JoinOfLines(t[n..]);
      var lines := Lines(t);
      assert lines[1..] == Lines(t[n..]);
      assert t == t[..n] + t[n..];
      forall i | 0 <= i < |lines| - 1
        ensures Apart(lines[i], lines[i + 1])
      {
        if i == 0 {
          assert lines[1] == t[n..][..LineLength(t[n..])];
          assert lines[1][0] == t[n..][0];
        } else {
          assert Apart(lines[1..][i - 1], lines[1..][i]);
        }
      }
      forall i | 0 <= i < |lines|
        ensures IsLine(lines[i])
      {
        if i > 0 { assert IsLine(lines[1..][i - 1]); }
      }
    }
  }

  /** A line without its break, as splitlines() gives it. */
  function Bare(l: string): (b: string)
    ensures b <= l
  {
    if |l| >= 2 && l[|l| - 2] == '\r' && l[|l| - 1] == '\n' then l[..|l| - 2]
    else if Terminated(l) then l[..|l| - 1]
    else l
  }

  /** No break but the last. */
  lemma {:induction false} BareHasNoBreak(l: string)
    requires IsLine(l)
    ensures forall i :: 0 <= i < |Bare(l)| ==> !IsBreak(l[i])
  {
    if !IsBreak(l[0]) && |l| > 1 {
      BareHasNoBreak(l[1..]);
      assert Bare(l) == [l[0]] + Bare(l[1..]);
      forall i | 0 <= i < |Bare(l)|
        ensures !IsBreak(l[i])
      {
        if i > 0 { assert l[i] == l[1..][i - 1]; }
      }
    }
  }

  /** Break-free text and one break make a line. */
  lemma {:induction false} LineOf(content: string, ending: string)
    requires forall i :: 0 <= i < |content| ==> !IsBreak(content[i])
    requires ending == "\n" || ending == "\r\n"
    ensures IsLine(content + ending) && Terminated(content + ending) && Bare(content + ending) == content
  {
    if content == "" {
      assert content + ending == ending;
    } else {
      LineOf(content[1..], ending);
      assert (content + ending)[1..] == content[1..] + ending;
    }
  }

  // ------------------------------------------------------------------ stripping

  function RStrip(s: string): string {
    if s != "" && IsSpace(s[|s| - 1]) then RStrip(s[..|s| - 1]) else s
  }

  function LStrip(s: string): string {
    if s != "" && IsSpace(s[0]) then LStrip(s[1..]) else s
  }

  /** str.strip */
  function Strip(s: string): string { LStrip(RStrip(s)) }

  lemma StripBare(l: string)
    ensures Strip(Bare(l)) == Strip(l)
  {
    var n := |l|;
    if n >= 2 && l[n - 2] == '\r' && l[n - 1] == '\n' {
      assert RStrip(l) == RStrip(l[..n - 1]) == RStrip(l[..n - 1][..n - 2]);
      assert l[..n - 1][..n - 2] == l[..n - 2];
    }
  }

  /** Text that starts with something visible keeps it. */
  lemma {:induction false} StripKeepsFirst(s: string)
    requires s != "" && !IsSpace(s[0])
    ensures Strip(s) != "" && Strip(s)[0] == s[0] && LStrip(s) == s
  {
    if IsSpace(s[|s| - 1]) { StripKeepsFirst(s[..|s| - 1]); }
  }

  /** Text with visible edges is not changed, nor is it by blanks in front. */
  lemma StripFixed(s: string)
    requires s == "" || (!IsSpace(s[0]) && !IsSpace(s[|s| - 1]))
    ensures Strip(s) == s
  {
  }

  lemma {:induction false} StripBlankInFront(s: string)
    ensures Strip(" " + s) == Strip(s)
  {
    var t := " " + s;
    if s == "" {
      assert t[..0] == "";
    } else if IsSpace(s[|s| - 1]) {
      StripBlankInFront(s[..|s| - 1]);
      assert t[..|t| - 1] == " " + s[..|s| - 1];
    } else {
      assert RStrip(t) == t && t[1..] == s;
    }
  }
}
