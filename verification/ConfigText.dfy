/** Element texts that hold one entry per line: trimming, splitting into lines, and the entries they list. */
module ConfigText {
  import opened PyStrings

  /** Where `str.splitlines` ends a line */
  predicate IsBreak(c: char) {
    c == '\n' || c == '\r' || '\U{B}' <= c <= '\U{C}' || '\U{1C}' <= c <= '\U{1E}'
    || c == '\U{85}' || '\U{2028}' <= c <= '\U{2029}'
  }

  /** What `str.strip` without arguments removes */
  predicate IsSpace(c: char) {
    IsBreak(c) || c == '\t' || c == '\U{1F}' || c == ' ' || c == '\U{A0}' || c == '\U{1680}'
    || '\U{2000}' <= c <= '\U{200A}' || c == '\U{202F}' || c == '\U{205F}' || c == '\U{3000}'
  }

  function LStrip(s: string, drop: char -> bool): string {
    if s != "" && drop(s[0]) then LStrip(s[1..], drop) else s
  }

  function RStrip(s: string, drop: char -> bool): string {
    if s != "" && drop(s[|s| - 1]) then RStrip(s[..|s| - 1], drop) else s
  }

  /** `s.strip(chars)`, with the characters given as a test */
  function StripChars(s: string, drop: char -> bool): string {
    RStrip(LStrip(s, drop), drop)
  }

  /** `s.strip()` */
  function Strip(s: string): string {
    StripChars(s, IsSpace)
  }

  /** Offset of the first line break, or the length. */
  function FirstBreak(s: string): (n: nat)
    ensures n <= |s| && (n < |s| ==> IsBreak(s[n]))
    ensures NoBreak(s[..n])
  {
    if s == "" || IsBreak(s[0]) then 0
    else
      var n := FirstBreak(s[1..]);
      assert s[..n + 1] == [s[0]] + s[1..][..n];
      n + 1
  }

  predicate NoBreak(s: string) {
    forall c <- s :: !IsBreak(c)
  }

  /** `s.splitlines()` */
  function SplitLines(s: string): seq<string>
    decreases |s|
  {
    if s == "" then []
    else
      var n := FirstBreak(s);
      if n == |s| then [s]
      else if s[n] == '\r' && n + 1 < |s| && s[n + 1] == '\n' then [s[..n]] + SplitLines(s[n + 2..])
      else [s[..n]] + SplitLines(s[n + 1..])
  }

  /** The entry a line holds: none if it is blank. */
  function LineEntry(line: string): seq<string> {
    if Strip(line) == "" then [] else [Strip(line)]
  }

  /** The entries listed in a text: its lines, trimmed, without the blank ones. */
  function Entries(s: string): seq<string>
    decreases |s|
  {
    var n := FirstBreak(s);
    if n == |s| then LineEntry(s) else LineEntry(s[..n]) + Entries(s[n + 1..])
  }

  lemma FirstBreakAppend(x: string, y: string)
    requires NoBreak(x)
    ensures FirstBreak(x + y) == |x| + FirstBreak(y)
  {
    if x == "" {
      assert x + y == y;
    } else {
      assert (x + y)[1..] == x[1..] + y;
      FirstBreakAppend(x[1..], y);
    }
  }

  lemma Regroup(x: string, d: char, y: string, c: char, b: string)
    ensures (x + [d] + y) + [c] + b == x + [d] + (y + [c] + b)
  {
  }

  lemma EntriesStep(x: string, c: char, y: string)
    requires IsBreak(c) && NoBreak(x)
    ensures Entries(x + [c] + y) == LineEntry(x) + Entries(y)
  {
    var s := x + [c] + y;
    assert s == x + ([c] + y);
    FirstBreakAppend(x, [c] + y);
    assert s[..|x|] == x && s[|x| + 1..] == y;
  }

  lemma EntriesOfLine(x: string)
    requires NoBreak(x)
    ensures Entries(x) == LineEntry(x)
  {
    assert x + "" == x;
    FirstBreakAppend(x, "");
  }

  lemma EntriesBreakLater(x: string, d: char, y: string, c: char, b: string)
    requires IsBreak(d) && NoBreak(x)
    requires Entries(y + [c] + b) == Entries(y) + Entries(b)
    ensures Entries((x + [d] + y) + [c] + b) == Entries(x + [d] + y) + Entries(b)
  {
    hide Entries;
    Regroup(x, d, y, c, b);
    EntriesStep(x, d, y + [c] + b);
    EntriesStep(x, d, y);
  }

  /** A line break separates entries. */
  lemma {:induction false} EntriesBreak(a: string, c: char, b: string)
    requires IsBreak(c)
    ensures Entries(a + [c] + b) == Entries(a) + Entries(b)
    decreases |a|
  {
    hide Entries;
    var n := FirstBreak(a);
    if n == |a| {
      assert a[..n] == a;
      EntriesStep(a, c, b);
      EntriesOfLine(a);
    } else {
      EntriesBreak(a[n + 1..], c, b);
      EntriesBreakLater(a[..n], a[n], a[n + 1..], c, b);
      assert a == a[..n] + [a[n]] + a[n + 1..];
    }
  }

  lemma StripLead(c: char, s: string)
    requires IsSpace(c)
    ensures Strip([c] + s) == Strip(s)
  {
    assert ([c] + s)[1..] == s;
  }

  lemma {:induction false} LStripAppend(s: string, drop: char -> bool, c: char)
    requires drop(c)
    ensures LStrip(s + [c], drop) == if LStrip(s, drop) == "" then "" else LStrip(s, drop) + [c]
  {
    if s == "" {
      assert s + [c] == [c];
      assert [c][1..] == "";
    } else if drop(s[0]) {
      assert (s + [c])[1..] == s[1..] + [c];
      LStripAppend(s[1..], drop, c);
    }
  }

  lemma StripTrail(s: string, c: char)
    requires IsSpace(c)
    ensures Strip(s + [c]) == Strip(s)
  {
    LStripAppend(s, IsSpace, c);
    var t := LStrip(s, IsSpace);
    if t != "" {
      assert (t + [c])[..|t|] == t;
    }
  }

  lemma EntriesLeadBlank(c: char, s: string)
    requires IsSpace(c) && !IsBreak(c)
    ensures Entries([c] + s) == Entries(s)
  {
    hide Entries;
    var n := FirstBreak(s);
    if n == |s| {
      assert s[..n] == s;
      assert NoBreak([c] + s);
      EntriesOfLine(s);
      EntriesOfLine([c] + s);
      StripLead(c, s);
    } else {
      var x, d, y := s[..n], s[n], s[n + 1..];
      assert s == x + [d] + y;
      assert [c] + s == ([c] + x) + [d] + y;
      EntriesStep(x, d, y);
      EntriesStep([c] + x, d, y);
      StripLead(c, x);
    }
  }

  /** White space around a text does not change its entries. */
  lemma EntriesLead(c: char, s: string)
    requires IsSpace(c)
    ensures Entries([c] + s) == Entries(s)
  {
    if IsBreak(c) {
      assert "" + [c] + s == [c] + s;
      EntriesStep("", c, s);
      assert LineEntry("") == [];
    } else {
      EntriesLeadBlank(c, s);
    }
  }

  lemma {:induction false} EntriesTrail(s: string, c: char)
    requires IsSpace(c)
    ensures Entries(s + [c]) == Entries(s)
    decreases |s|
  {
    hide Entries;
    var n := FirstBreak(s);
    if IsBreak(c) {
      assert s + [c] + "" == s + [c];
      EntriesBreak(s, c, "");
      EntriesOfLine("");
      assert LineEntry("") == [];
    } else if n == |s| {
      assert s[..n] == s;
      assert NoBreak(s + [c]);
      EntriesOfLine(s);
      EntriesOfLine(s + [c]);
      StripTrail(s, c);
    } else {
      var x, d, y := s[..n], s[n], s[n + 1..];
      assert s == x + [d] + y;
      assert s + [c] == x + [d] + (y + [c]);
      EntriesStep(x, d, y);
      EntriesStep(x, d, y + [c]);
      EntriesTrail(y, c);
    }
  }

  lemma {:induction false} EntriesLStrip(s: string)
    ensures Entries(LStrip(s, IsSpace)) == Entries(s)
  {
    if s != "" && IsSpace(s[0]) {
      assert s == [s[0]] + s[1..];
      EntriesLead(s[0], s[1..]);
      EntriesLStrip(s[1..]);
    }
  }

  lemma {:induction false} EntriesRStrip(s: string)
    ensures Entries(RStrip(s, IsSpace)) == Entries(s)
  {
    if s != "" && IsSpace(s[|s| - 1]) {
      assert s == s[..|s| - 1] + [s[|s| - 1]];
      EntriesTrail(s[..|s| - 1], s[|s| - 1]);
      EntriesRStrip(s[..|s| - 1]);
    }
  }

  lemma EntriesStrip(s: string)
    ensures Entries(Strip(s)) == Entries(s)
  {
    EntriesLStrip(s);
    EntriesRStrip(LStrip(s, IsSpace));
  }

  /** The text without white space. */
  function Solid(s: string): string {
    if s == "" then "" else (if IsSpace(s[0]) then "" else [s[0]]) + Solid(s[1..])
  }

  function Joined(parts: seq<string>): string {
    if parts == [] then "" else parts[0] + Joined(parts[1..])
  }

  lemma {:induction false} SolidConcat(a: string, b: string)
    ensures Solid(a + b) == Solid(a) + Solid(b)
  {
    if a == "" {
      assert a + b == b;
    } else {
      assert (a + b)[1..] == a[1..] + b;
      SolidConcat(a[1..], b);
    }
  }

  lemma {:induction false} SolidLStrip(s: string)
    ensures Solid(LStrip(s, IsSpace)) == Solid(s)
  {
    if s != "" && IsSpace(s[0]) {
      SolidLStrip(s[1..]);
    }
  }

  lemma {:induction false} SolidRStrip(s: string)
    ensures Solid(RStrip(s, IsSpace)) == Solid(s)
  {
    if s != "" && IsSpace(s[|s| - 1]) {
      assert s == s[..|s| - 1] + [s[|s| - 1]];
      SolidConcat(s[..|s| - 1], [s[|s| - 1]]);
      SolidRStrip(s[..|s| - 1]);
    }
  }

  lemma SolidLine(line: string)
    ensures Solid(Joined(LineEntry(line))) == Solid(line)
  {
    SolidLStrip(line);
    SolidRStrip(LStrip(line, IsSpace));
    var t := Strip(line);
    if t != "" {
      assert Joined([t]) == t;
    }
  }

  lemma {:induction false} JoinedConcat(a: seq<string>, b: seq<string>)
    ensures Joined(a + b) == Joined(a) + Joined(b)
  {
    if a == [] {
      assert a + b == b;
    } else {
      assert (a + b)[1..] == a[1..] + b;
      JoinedConcat(a[1..], b);
    }
  }

  /** No character but white space is lost from a text when its entries are listed. */
  lemma {:induction false} SolidEntries(s: string)
    ensures Solid(Joined(Entries(s))) == Solid(s)
    decreases |s|
  {
    hide Entries, LineEntry;
    var n := FirstBreak(s);
    if n == |s| {
      assert s[..n] == s;
      EntriesOfLine(s);
      SolidLine(s);
    } else {
      var x, c, y := s[..n], s[n], s[n + 1..];
      assert s == x + [c] + y;
      EntriesStep(x, c, y);
      SolidLine(x);
      SolidEntries(y);
      JoinedConcat(LineEntry(x), Entries(y));
      SolidConcat(Joined(LineEntry(x)), Joined(Entries(y)));
      SolidConcat(x + [c], y);
      SolidConcat(x, [c]);
      assert Solid([c]) == "";
    }
  }

  lemma {:induction false} SolidMember(s: string, c: char)
    requires !IsSpace(c)
    ensures c in Solid(s) <==> c in s
  {
    if s != "" {
      SolidMember(s[1..], c);
      assert s == [s[0]] + s[1..];
    }
  }

  /** Texts that list the same entries have the same characters in the same order, white space aside. */
  lemma SameEntriesSolid(s: string, t: string, u: string)
    requires Entries(s) == Entries(t) + Entries(u)
    ensures Solid(s) == Solid(t) + Solid(u)
  {
    SolidEntries(s);
    SolidEntries(t);
    SolidEntries(u);
    JoinedConcat(Entries(t), Entries(u));
    SolidConcat(Joined(Entries(t)), Joined(Entries(u)));
  }

  /** The lines as `remove` sees them: of the trimmed text, each trimmed. */
  function TrimmedLines(s: string): seq<string> {
    Map(SplitLines(Strip(s)))
  }

  function Map(lines: seq<string>): seq<string> {
    if lines == [] then [] else [Strip(lines[0])] + Map(lines[1..])
  }

  function NonBlank(lines: seq<string>): seq<string> {
    if lines == [] then [] else (if lines[0] == "" then [] else [lines[0]]) + NonBlank(lines[1..])
  }

  /** `lines.remove(v)` */
  function RemoveFirst(lines: seq<string>, v: string): seq<string> {
    if lines == [] then []
    else if lines[0] == v then lines[1..]
    else [lines[0]] + RemoveFirst(lines[1..], v)
  }

  /** Only the first occurrence goes. */
  lemma {:induction false} RemoveFirstIs(lines: seq<string>, v: string) returns (i: nat)
    ensures v !in lines ==> RemoveFirst(lines, v) == lines
    ensures v in lines ==>
      i < |lines| && lines[i] == v && v !in lines[..i] && RemoveFirst(lines, v) == lines[..i] + lines[i + 1..]
  {
    hide RemoveFirst;
    i := 0;
    if lines == [] {
      RemoveFirstNone(v);
    } else {
      var first, rest := lines[0], lines[1..];
      assert lines == [first] + rest;
      RemoveFirstCons(first, rest, v);
      if first == v {
        assert lines[..0] == [] && [] + rest == rest;
      } else {
        var k := RemoveFirstIs(rest, v);
        if v in rest {
          FirstLater(first, rest, v, k);
          i := k + 1;
        }
      }
    }
  }

  lemma FirstLater(first: string, rest: seq<string>, v: string, i: nat)
    requires first != v && i < |rest| && rest[i] == v && v !in rest[..i]
    ensures
      var lines, k := [first] + rest, i + 1;
      lines[k] == v && v !in lines[..k] && [first] + (rest[..i] + rest[i + 1..]) == lines[..k] + lines[k + 1..]
  {
    var lines := [first] + rest;
    assert lines[..i + 1] == [first] + rest[..i];
    assert lines[i + 2..] == rest[i + 1..];
  }

  lemma RemoveFirstNone(v: string)
    ensures RemoveFirst([], v) == []
  {
  }

  lemma MapCons(line: string, rest: seq<string>)
    ensures NonBlank(Map([line] + rest)) == LineEntry(line) + NonBlank(Map(rest))
  {
    assert ([line] + rest)[1..] == rest;
    assert Map([line] + rest) == [Strip(line)] + Map(rest);
    assert Map([line] + rest)[1..] == Map(rest);
  }

  lemma LeadingBreak(c: char, s: string)
    requires IsBreak(c)
    ensures Entries([c] + s) == Entries(s)
  {
    EntriesLead(c, s);
  }

  lemma {:induction false} EntriesOfLines(s: string)
    ensures Entries(s) == NonBlank(Map(SplitLines(s)))
    decreases |s|
  {
    hide Entries, LineEntry, Map, NonBlank;
    var n := FirstBreak(s);
    if s == "" {
      EntriesOfLine("");
      NoLines();
    } else if n == |s| {
      assert s[..n] == s;
      EntriesOfLine(s);
      MapCons(s, []);
      NoLines();
      assert SplitLines(s) == [s] + [];
    } else {
      var x, c := s[..n], s[n];
      assert s == x + [c] + s[n + 1..];
      EntriesStep(x, c, s[n + 1..]);
      if s[n] == '\r' && n + 1 < |s| && s[n + 1] == '\n' {
        assert s[n + 1..] == [s[n + 1]] + s[n + 2..];
        LeadingBreak(s[n + 1], s[n + 2..]);
        EntriesOfLines(s[n + 2..]);
        MapCons(x, SplitLines(s[n + 2..]));
      } else {
        EntriesOfLines(s[n + 1..]);
        MapCons(x, SplitLines(s[n + 1..]));
      }
    }
  }

  lemma NoLines()
    ensures NonBlank(Map([])) == [] && LineEntry("") == []
  {
  }

  lemma EntriesOfTrimmedLines(s: string)
    ensures Entries(s) == NonBlank(TrimmedLines(s))
  {
    EntriesStrip(s);
    EntriesOfLines(Strip(s));
  }

  lemma {:induction false} NonBlankMember(lines: seq<string>, v: string)
    requires v != ""
    ensures v in NonBlank(lines) <==> v in lines
  {
    if lines != [] {
      NonBlankMember(lines[1..], v);
      assert lines == [lines[0]] + lines[1..];
    }
  }

  lemma NonBlankCons(line: string, rest: seq<string>)
    ensures NonBlank([line] + rest) == (if line == "" then [] else [line]) + NonBlank(rest)
  {
    assert ([line] + rest)[1..] == rest;
  }

  lemma RemoveFirstCons(line: string, rest: seq<string>, v: string)
    ensures RemoveFirst([line] + rest, v) == if line == v then rest else [line] + RemoveFirst(rest, v)
  {
    assert ([line] + rest)[1..] == rest;
  }

  /** Taking out a blank line changes no entry, and there is no blank entry to take out. */
  lemma {:induction false} NonBlankRemoveBlank(lines: seq<string>)
    ensures NonBlank(RemoveFirst(lines, "")) == NonBlank(lines) == RemoveFirst(NonBlank(lines), "")
  {
    if lines != [] {
      hide NonBlank, RemoveFirst;
      var line, rest := lines[0], lines[1..];
      assert lines == [line] + rest;
      NonBlankRemoveBlank(rest);
      RemoveFirstCons(line, rest, "");
      NonBlankCons(line, rest);
      NonBlankCons(line, RemoveFirst(rest, ""));
      RemoveFirstCons(line, NonBlank(rest), "");
      if line == "" {
        assert [] + NonBlank(rest) == NonBlank(rest);
      }
    }
  }

  lemma {:induction false} NonBlankRemove(lines: seq<string>, v: string)
    requires v != ""
    ensures NonBlank(RemoveFirst(lines, v)) == RemoveFirst(NonBlank(lines), v)
  {
    if lines != [] {
      hide NonBlank, RemoveFirst;
      var line, rest := lines[0], lines[1..];
      assert lines == [line] + rest;
      NonBlankRemove(rest, v);
      RemoveFirstCons(line, rest, v);
      NonBlankCons(line, rest);
      NonBlankCons(line, RemoveFirst(rest, v));
      RemoveFirstCons(line, NonBlank(rest), v);
      if line == "" {
        assert [] + NonBlank(rest) == NonBlank(rest);
        assert [] + NonBlank(RemoveFirst(rest, v)) == NonBlank(RemoveFirst(rest, v));
      }
    }
  }

  predicate Blank(s: string) {
    forall c <- s :: IsSpace(c)
  }

  lemma {:induction false} EntriesLeadAll(w: string, s: string)
    requires Blank(w)
    ensures Entries(w + s) == Entries(s)
  {
    hide Entries;
    if w == "" {
      assert w + s == s;
    } else {
      assert w + s == [w[0]] + (w[1..] + s);
      EntriesLead(w[0], w[1..] + s);
      EntriesLeadAll(w[1..], s);
    }
  }

  lemma {:induction false} EntriesTrailAll(s: string, w: string)
    requires Blank(w)
    ensures Entries(s + w) == Entries(s)
    decreases |w|
  {
    hide Entries;
    if w == "" {
      assert s + w == s;
    } else {
      assert s + w == (s + [w[0]]) + w[1..];
      EntriesTrail(s, w[0]);
      EntriesTrailAll(s + [w[0]], w[1..]);
    }
  }

  /** How the store separates entries when it writes them, and what it puts at the end. */
  const SEPARATOR := "\n\t    "
  const TERMINATOR := "\n\t"

  lemma EntriesSeparated(a: string, b: string)
    ensures Entries(a + SEPARATOR + b) == Entries(a) + Entries(b)
  {
    hide Entries;
    var w := "\t    ";
    assert SEPARATOR == ['\n'] + w;
    assert a + SEPARATOR + b == a + ['\n'] + (w + b);
    EntriesBreak(a, '\n', w + b);
    EntriesLeadAll(w, b);
  }

  /** The text `append` writes lists the old entries and then those of the appended value. */
  lemma EntriesAppended(text: string, v: string)
    ensures Entries(text + SEPARATOR + v + TERMINATOR) == Entries(text) + Entries(v)
  {
    hide Entries;
    EntriesTrailAll(text + SEPARATOR + v, TERMINATOR);
    EntriesSeparated(text, v);
  }

  /** `SEPARATOR.join(lines)` */
  function Join(lines: seq<string>): string {
    if lines == [] then ""
    else if |lines| == 1 then lines[0]
    else lines[0] + SEPARATOR + Join(lines[1..])
  }

  predicate Trimmed(line: string) {
    NoBreak(line) && Strip(line) == line
  }

  lemma {:induction false} EntriesOfJoin(lines: seq<string>)
    requires forall line <- lines :: Trimmed(line)
    ensures Entries(Join(lines)) == NonBlank(lines)
  {
    hide Entries, NonBlank;
    if lines == [] {
      EntriesOfLine("");
      NoLines();
      assert Map([]) == [];
    } else {
      var line, rest := lines[0], lines[1..];
      assert lines == [line] + rest;
      assert line in lines;
      EntriesOfLine(line);
      NonBlankCons(line, rest);
      EntriesOfJoin(rest);
      if rest == [] {
        NoLines();
        assert Map([]) == [];
      } else {
        EntriesSeparated(line, Join(rest));
      }
    }
  }

  /** The text `remove` writes lists the lines it kept, but for blank ones. */
  lemma EntriesRewritten(lines: seq<string>)
    requires forall line <- lines :: Trimmed(line)
    ensures Entries(SEPARATOR + Join(lines) + TERMINATOR) == NonBlank(lines)
  {
    hide Entries;
    EntriesTrailAll(SEPARATOR + Join(lines), TERMINATOR);
    EntriesLeadAll(SEPARATOR, Join(lines));
    EntriesOfJoin(lines);
  }

  lemma {:induction false} LStripParts(s: string)
    ensures LStrip(s, IsSpace) == "" || !IsSpace(LStrip(s, IsSpace)[0])
    ensures NoBreak(s) ==> NoBreak(LStrip(s, IsSpace))
  {
    if s != "" && IsSpace(s[0]) {
      LStripParts(s[1..]);
    }
  }

  lemma {:induction false} RStripParts(s: string)
    ensures RStrip(s, IsSpace) <= s
    ensures RStrip(s, IsSpace) == "" || !IsSpace(RStrip(s, IsSpace)[|RStrip(s, IsSpace)| - 1])
    ensures NoBreak(s) ==> NoBreak(RStrip(s, IsSpace))
  {
    if s != "" && IsSpace(s[|s| - 1]) {
      RStripParts(s[..|s| - 1]);
    }
  }

  lemma StripTrimmed(line: string)
    requires NoBreak(line)
    ensures Trimmed(Strip(line))
  {
    LStripParts(line);
    RStripParts(LStrip(line, IsSpace));
  }

  lemma {:induction false} SplitLinesNoBreak(s: string)
    ensures forall line <- SplitLines(s) :: NoBreak(line)
    decreases |s|
  {
    if s != "" {
      var n := FirstBreak(s);
      if n == |s| {
        assert s[..n] == s;
      } else if s[n] == '\r' && n + 1 < |s| && s[n + 1] == '\n' {
        SplitLinesNoBreak(s[n + 2..]);
      } else {
        SplitLinesNoBreak(s[n + 1..]);
      }
    }
  }

  lemma {:induction false} MapTrimmed(lines: seq<string>)
    requires forall line <- lines :: NoBreak(line)
    ensures forall line <- Map(lines) :: Trimmed(line)
  {
    if lines != [] {
      assert lines[0] in lines;
      StripTrimmed(lines[0]);
      MapTrimmed(lines[1..]);
    }
  }

  lemma {:induction false} RemoveFirstMembers(lines: seq<string>, v: string)
    ensures forall line <- RemoveFirst(lines, v) :: line in lines
  {
    if lines != [] && lines[0] != v {
      RemoveFirstMembers(lines[1..], v);
    }
  }

  /** Rewriting the text without one of its lines removes that entry's first occurrence. */
  lemma EntriesRemoved(text: string, v: string)
    ensures v != "" ==> (v in TrimmedLines(text) <==> v in Entries(text))
    ensures Entries(SEPARATOR + Join(RemoveFirst(TrimmedLines(text), v)) + TERMINATOR)
         == RemoveFirst(Entries(text), v)
  {
    hide Entries, Join, NonBlank, Map;
    var lines := TrimmedLines(text);
    EntriesOfTrimmedLines(text);
    if v != "" {
      NonBlankMember(lines, v);
      NonBlankRemove(lines, v);
    } else {
      NonBlankRemoveBlank(lines);
    }
    SplitLinesNoBreak(Strip(text));
    MapTrimmed(SplitLines(Strip(text)));
    RemoveFirstMembers(lines, v);
    EntriesRewritten(RemoveFirst(lines, v));
  }

  lemma {:induction false} SolidEmpty(s: string)
    ensures Solid(s) == "" <==> Blank(s)
  {
    if s != "" {
      assert s == [s[0]] + s[1..];
      SolidEmpty(s[1..]);
    }
  }

  /** A text that lists something has a character that is not white space. */
  lemma SolidIfListed(s: string)
    requires Entries(s) != []
    ensures Solid(s) != ""
  {
    hide Entries;
    SolidEmpty(s);
    assert s + "" == s;
    EntriesOfLine("");
    NoLines();
    if Blank(s) {
      EntriesLeadAll(s, "");
    }
  }

  lemma {:induction false} RemoveFirstAppended(lines: seq<string>, v: string)
    requires v !in lines
    ensures RemoveFirst(lines + [v], v) == lines
  {
    if lines == [] {
      assert lines + [v] == [v];
    } else {
      assert (lines + [v])[1..] == lines[1..] + [v];
      RemoveFirstAppended(lines[1..], v);
    }
  }
}
