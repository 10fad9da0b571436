/** The JSON text that Python's `json.dumps` writes, as far as the status log and the results need it. */
module JsonText {
  import opened Options
  import opened PyStrings
  import opened VersionText

  function HexDigit(d: nat): char
    requires d < 16
  {
    "0123456789abcdef"[d]
  }

  /** A code unit as `\uXXXX` */
  function CodeUnit(n: nat): string {
    "\\u" + [HexDigit(n / 4096 % 16), HexDigit(n / 256 % 16), HexDigit(n / 16 % 16), HexDigit(n % 16)]
  }

  /** What stands for a character between the quotes. */
  function EscapeChar(c: char): string {
    var n := c as int;
    if c == '"' then "\\\""
    else if c == '\\' then "\\\\"
    else if n == 8 then "\\b"
    else if n == 9 then "\\t"
    else if n == 10 then "\\n"
    else if n == 12 then "\\f"
    else if n == 13 then "\\r"
    else if 32 <= n < 127 then [c]
    else if n < 0x1_0000 then CodeUnit(n)
    else CodeUnit(0xd800 + (n - 0x1_0000) / 1024) + CodeUnit(0xdc00 + (n - 0x1_0000) % 1024)
  }

  function Escape(s: string): string {
    if s == "" then "" else EscapeChar(s[0]) + Escape(s[1..])
  }

  /** A word of capital letters, which no escape sequence can be part of. */
  predicate Capitals(p: string) {
    p != "" && forall c <- p :: 'A' <= c <= 'Z'
  }

  lemma CodeUnitLower(n: nat)
    ensures CodeUnit(n) != "" && forall x <- CodeUnit(n) :: !('A' <= x <= 'Z')
  {
    assert forall d: nat | d < 16 :: !('A' <= HexDigit(d) <= 'Z');
    hide HexDigit;
  }

  lemma EscapeSequence(c: char)
    ensures EscapeChar(c) == [c] || forall x <- EscapeChar(c) :: !('A' <= x <= 'Z')
    ensures EscapeChar(c) != ""
    ensures 'A' <= c <= 'Z' ==> EscapeChar(c) == [c]
  {
    hide CodeUnit;
    var n := c as int;
    if n < 0x1_0000 {
      CodeUnitLower(n);
    } else {
      CodeUnitLower(0xd800 + (n - 0x1_0000) / 1024);
      CodeUnitLower(0xdc00 + (n - 0x1_0000) % 1024);
    }
  }

  lemma {:induction false} EscapePrefix(s: string, q: string)
    requires forall c <- q :: 'A' <= c <= 'Z'
    ensures q <= Escape(s) <==> q <= s
  {
    hide EscapeChar;
    if q != "" && s != "" {
      EscapeSequence(s[0]);
      var e, rest := EscapeChar(s[0]), Escape(s[1..]);
      assert q[0] in q && forall c <- q[1..] :: c in q;
      if q[0] == s[0] {
        EscapePrefix(s[1..], q[1..]);
        assert Escape(s) == [s[0]] + rest;
        assert Escape(s)[1..] == rest;
        assert q == [q[0]] + q[1..] && s == [s[0]] + s[1..];
      } else {
        assert e[0] in e && Escape(s)[0] == e[0];
      }
    }
  }

  lemma {:induction false} ContainsAfter(e: string, s: string, p: string)
    requires p != "" && forall c <- e :: c !in p
    ensures Contains(e + s, p) <==> Contains(s, p)
  {
    if e == "" {
      assert e + s == s;
    } else {
      assert e[0] in e && forall c <- e[1..] :: c in e;
      ContainsAfter(e[1..], s, p);
      assert e + s == [e[0]] + (e[1..] + s);
      ContainsNext(e[0], e[1..] + s, p);
      assert p[0] in p;
    }
  }

  /** Escaping neither hides nor makes a word of capital letters. */
  lemma {:induction false} EscapeContains(s: string, p: string)
    requires Capitals(p)
    ensures Contains(Escape(s), p) <==> Contains(s, p)
  {
    hide EscapeChar;
    if s == "" {
    } else {
      var c, rest := s[0], s[1..];
      EscapeSequence(c);
      EscapeContains(rest, p);
      assert s == [c] + rest;
      ContainsNext(c, rest, p);
      if EscapeChar(c) == [c] {
        ContainsNext(c, Escape(rest), p);
        EscapePrefix(s, p);
      } else {
        ContainsAfter(EscapeChar(c), Escape(rest), p);
        assert p[0] in p;
      }
    }
  }

  /** Parts with a quote between each and the next: an object is written like this. */
  function Quoted(parts: seq<string>): string {
    if parts == [] then "" else if |parts| == 1 then parts[0] else parts[0] + ['"'] + Quoted(parts[1..])
  }

  lemma {:induction false} QuotedContains(parts: seq<string>, p: string)
    requires p != "" && '"' !in p
    ensures Contains(Quoted(parts), p) <==> exists part <- parts :: Contains(part, p)
  {
    if |parts| > 1 {
      QuotedContains(parts[1..], p);
      ContainsAround(parts[0], '"', Quoted(parts[1..]), p);
      assert parts == [parts[0]] + parts[1..];
    } else if |parts| == 1 {
      assert parts[0] in parts;
    }
  }

  lemma {:induction false} DigitsOnly(n: nat)
    ensures forall c <- Digits(n) :: '0' <= c <= '9'
  {
    if n >= 10 {
      DigitsOnly(n / 10);
    }
  }

  /** `{"status": …, "message": "…"}` */
  function ResultText(status: int, message: string): string {
    Quoted(["{", "status", ": " + Itoa(status) + ", ", "message", ": ", Escape(message), "}"])
  }

  /** The text of a result holds a word of capital letters exactly when its message does. */
  lemma ResultTextContains(status: int, message: string, p: string)
    requires Capitals(p)
    ensures Contains(ResultText(status, message), p) <==> Contains(message, p)
  {
    hide Itoa, Quoted, Escape, Contains;
    var code := ": " + Itoa(status) + ", ";
    var parts := ["{", "status", code, "message", ": ", Escape(message), "}"];
    assert p[0] in p;
    ItoaLower(status);
    forall part <- parts
      ensures part == Escape(message) || !Contains(part, p)
    {
      ContainedFirst(part, p);
    }
    assert parts[5] == Escape(message);
    QuotedContains(parts, p);
    EscapeContains(message, p);
  }

  /** The members of an object whose values are strings, up to the closing brace. */
  function Members(fields: seq<(string, string)>): string {
    if fields == [] then "}"
    else
      ['"'] + (fields[0].0 + ['"'] + (": " + ['"'] + (fields[0].1 + ['"']
      + ((if |fields| > 1 then ", " else "") + Members(fields[1..])))))
  }

  /** An object holds a word that begins none of its names' letters exactly when one of its values does. */
  lemma {:induction false} MembersContain(fields: seq<(string, string)>, p: string)
    requires Capitals(p) && forall f <- fields :: p[0] !in f.0
    ensures Contains(Members(fields), p) <==> exists f <- fields :: Contains(f.1, p)
  {
    assert p[0] in p;
    if fields == [] {
      ContainedFirst("}", p);
    } else {
      hide Contains;
      var (name, value) := fields[0];
      var separator, rest := if |fields| > 1 then ", " else "", Members(fields[1..]);
      assert fields == [fields[0]] + fields[1..];
      MembersContain(fields[1..], p);
      ContainsAfter(separator, rest, p);
      ContainsAround(value, '"', separator + rest, p);
      ContainsAround(": ", '"', value + ['"'] + (separator + rest), p);
      ContainsAround(name, '"', ": " + ['"'] + (value + ['"'] + (separator + rest)), p);
      ContainsAfter("\"", name + ['"'] + (": " + ['"'] + (value + ['"'] + (separator + rest))), p);
      ContainedFirst(": ", p);
      ContainedFirst(name, p);
    }
  }

  /** A JSON reader (RFC 8259, section 7): the value of a hexadecimal digit */
  function HexValue(c: char): Option<nat> {
    if '0' <= c <= '9' then Some(c as int - '0' as int)
    else if 'a' <= c <= 'f' then Some(c as int - 'a' as int + 10)
    else if 'A' <= c <= 'F' then Some(c as int - 'A' as int + 10)
    else None
  }

  /** The code unit that `\uXXXX` at the beginning of a text stands for. */
  function ReadUnit(s: string): (n: Option<nat>)
    ensures n.Some? ==> |s| >= 6 && n.value < 0x1_0000
  {
    if |s| < 6 || s[0] != '\\' || s[1] != 'u' then None
    else
      match (HexValue(s[2]), HexValue(s[3]), HexValue(s[4]), HexValue(s[5]))
      case (Some(a), Some(b), Some(c), Some(d)) => Some(a * 4096 + b * 256 + c * 16 + d)
      case _ => None
  }

  /** The first character of a string's contents, and what follows it; a pair of surrogates is one character. */
  function ReadChar(s: string): (r: Option<(char, string)>)
    ensures r.Some? ==> |r.value.1| < |s|
  {
    if s == "" || s[0] == '"' then None
    else if s[0] != '\\' then Some((s[0], s[1..]))
    else if |s| < 2 then None
    else if s[1] == '"' || s[1] == '\\' || s[1] == '/' then Some((s[1], s[2..]))
    else if s[1] == 'b' then Some(('\U{8}', s[2..]))
    else if s[1] == 'f' then Some(('\U{C}', s[2..]))
    else if s[1] == 'n' then Some(('\n', s[2..]))
    else if s[1] == 'r' then Some(('\r', s[2..]))
    else if s[1] == 't' then Some(('\t', s[2..]))
    else
      match ReadUnit(s)
      case None => None
      case Some(n) =>
        if n < 0xd800 || 0xe000 <= n then Some((n as char, s[6..]))
        else
          match ReadUnit(s[6..])
          case None => None
          case Some(m) =>
            if n < 0xdc00 && 0xdc00 <= m < 0xe000 then Some(((0x1_0000 + (n - 0xd800) * 1024 + (m - 0xdc00)) as char, s[12..]))
            else None
  }

  /** The contents of a string up to the closing quote, and what follows it. */
  function ReadText(s: string): (r: Option<(string, string)>)
    ensures r.Some? ==> |r.value.1| < |s|
    decreases |s|
  {
    if s != "" && s[0] == '"' then Some(("", s[1..]))
    else
      match ReadChar(s)
      case None => None
      case Some((c, rest)) =>
        match ReadText(rest)
        case None => None
        case Some((text, after)) => Some(([c] + text, after))
  }

  /** The members of an object of strings, after the opening brace. */
  function ReadMembers(s: string): Option<seq<(string, string)>>
    decreases |s|
  {
    if s == "}" then Some([])
    else if s == "" || s[0] != '"' then None
    else
      match ReadText(s[1..])
      case None => None
      case Some((name, rest)) =>
        if !(": \"" <= rest) then None
        else
          match ReadText(rest[3..])
          case None => None
          case Some((value, after)) =>
            match ReadMembers(if ", " <= after then after[2..] else after)
            case None => None
            case Some(more) => Some([(name, value)] + more)
  }

  function ReadObject(s: string): Option<seq<(string, string)>> {
    if s == "" || s[0] != '{' then None else ReadMembers(s[1..])
  }

  lemma HexRead(d: nat)
    requires d < 16
    ensures HexValue(HexDigit(d)) == Some(d)
  {
  }

  lemma HexSum(n: nat)
    requires n < 0x1_0000
    ensures n / 4096 % 16 * 4096 + n / 256 % 16 * 256 + n / 16 % 16 * 16 + n % 16 == n
  {
    var a := n / 16;
    var b := a / 16;
    var c := b / 16;
    DivTwice(n);
    assert n == a * 16 + n % 16 && a == b * 16 + a % 16 && b == c * 16 + b % 16 && c % 16 == c;
  }

  lemma DivTwice(n: nat)
    ensures n / 256 == n / 16 / 16 && n / 4096 == n / 16 / 16 / 16
  {
    var a := n / 16;
    var b := a / 16;
    assert b * 256 <= n < b * 256 + 256;
    var c := b / 16;
    assert c * 4096 <= n < c * 4096 + 4096;
  }

  lemma UnitRead(a: nat, b: nat, c: nat, d: nat, rest: string)
    requires a < 16 && b < 16 && c < 16 && d < 16
    ensures
      var s := "\\u" + [HexDigit(a), HexDigit(b), HexDigit(c), HexDigit(d)] + rest;
      ReadUnit(s) == Some(a * 4096 + b * 256 + c * 16 + d) && s[6..] == rest && s[0] == '\\' && s[1] == 'u'
  {
    hide HexValue, HexDigit;
    HexRead(a);
    HexRead(b);
    HexRead(c);
    HexRead(d);
  }

  lemma CodeUnitRead(n: nat, rest: string)
    requires n < 0x1_0000
    ensures ReadUnit(CodeUnit(n) + rest) == Some(n) && (CodeUnit(n) + rest)[6..] == rest && |CodeUnit(n)| == 6
    ensures CodeUnit(n)[0] == '\\' && CodeUnit(n)[1] == 'u'
  {
    hide HexDigit, ReadUnit;
    HexSum(n);
    UnitRead(n / 4096 % 16, n / 256 % 16, n / 16 % 16, n % 16, rest);
  }

  /** What stands for a character is read as that character. */
  lemma EscapeCharRead(c: char, rest: string)
    ensures ReadChar(EscapeChar(c) + rest) == Some((c, rest)) && EscapeChar(c)[0] != '"'
  {
    hide CodeUnit, ReadUnit;
    var n := c as int;
    var s := EscapeChar(c) + rest;
    if 32 <= n < 127 && c != '"' && c != '\\' {
      assert s[1..] == rest;
    } else if n < 0x1_0000 {
      CodeUnitRead(n, rest);
      assert |EscapeChar(c)| == 2 ==> s[2..] == rest;
    } else {
      PairRead(n, rest);
    }
  }

  lemma PairRead(n: nat, rest: string)
    requires 0x1_0000 <= n < 0x11_0000
    ensures
      var s := CodeUnit(0xd800 + (n - 0x1_0000) / 1024) + CodeUnit(0xdc00 + (n - 0x1_0000) % 1024) + rest;
      ReadChar(s) == Some((n as char, rest)) && s[0] != '"'
  {
    hide CodeUnit, ReadUnit;
    var hi, lo := 0xd800 + (n - 0x1_0000) / 1024, 0xdc00 + (n - 0x1_0000) % 1024;
    var s := CodeUnit(hi) + CodeUnit(lo) + rest;
    assert s == CodeUnit(hi) + (CodeUnit(lo) + rest);
    CodeUnitRead(hi, CodeUnit(lo) + rest);
    CodeUnitRead(lo, rest);
    assert s[12..] == s[6..][6..];
    assert 0x1_0000 + (hi - 0xd800) * 1024 + (lo - 0xdc00) == n;
  }

  /** Reading an escaped text and its closing quote gives the text back, for every string. */
  lemma {:induction false} EscapeRead(v: string, rest: string)
    ensures ReadText(Escape(v) + ['"'] + rest) == Some((v, rest))
  {
    hide EscapeChar, ReadChar;
    var s := Escape(v) + ['"'] + rest;
    if v == "" {
      assert s == ['"'] + rest;
      assert s[1..] == rest;
    } else {
      var more := Escape(v[1..]) + ['"'] + rest;
      assert s == EscapeChar(v[0]) + more;
      EscapeCharRead(v[0], more);
      EscapeRead(v[1..], rest);
      assert v == [v[0]] + v[1..];
    }
  }

  /** Names and values as they stand in an object. */
  function Escaped(fields: seq<(string, string)>): seq<(string, string)> {
    if fields == [] then [] else [(Escape(fields[0].0), Escape(fields[0].1))] + Escaped(fields[1..])
  }

  /** One member, and what follows it. */
  lemma MemberRead(name: string, value: string, separated: string, more: string, fields: seq<(string, string)>)
    requires ReadMembers(more) == Some(fields) && more != "" && more[0] != ','
    requires separated == more || separated == ", " + more
    ensures ReadMembers(['"'] + (Escape(name) + ['"'] + (": \"" + (Escape(value) + ['"'] + separated)))) == Some([(name, value)] + fields)
  {
    hide Escape, ReadText;
    var after := ": \"" + (Escape(value) + ['"'] + separated);
    var s := ['"'] + (Escape(name) + ['"'] + after);
    assert s != "}" && s[0] == '"' && s[1..] == Escape(name) + ['"'] + after;
    EscapeRead(name, after);
    assert ": \"" <= after && after[3..] == Escape(value) + ['"'] + separated;
    EscapeRead(value, separated);
    assert (if ", " <= separated then separated[2..] else separated) == more;
  }

  lemma MembersParts(name: string, value: string, rest: seq<(string, string)>)
    ensures Members([(name, value)] + rest)
         == ['"'] + (name + ['"'] + (": \"" + (value + ['"'] + ((if rest != [] then ", " else "") + Members(rest)))))
    ensures Members(rest) != "" && Members(rest)[0] != ','
  {
    var fields := [(name, value)] + rest;
    assert fields[1..] == rest && (|fields| > 1 <==> rest != []);
    assert ": " + ['"'] == ": \"";
  }

  /** Reading an object of strings gives its names and values back, in order. */
  lemma {:induction false} MembersRead(fields: seq<(string, string)>)
    ensures ReadMembers(Members(Escaped(fields))) == Some(fields)
  {
    if fields == [] {
      assert Members([]) == "}";
    } else {
      hide Escape, ReadText, Members, ReadMembers;
      var (name, value) := fields[0];
      var rest := Escaped(fields[1..]);
      assert Escaped(fields) == [(Escape(name), Escape(value))] + rest;
      MembersParts(Escape(name), Escape(value), rest);
      MembersRead(fields[1..]);
      var separated := (if rest != [] then ", " else "") + Members(rest);
      MemberRead(name, value, separated, Members(rest), fields[1..]);
      assert fields == [(name, value)] + fields[1..];
    }
  }

  /** A text of printable characters without quotes and backslashes stands for itself. */
  lemma {:induction false} EscapePlain(s: string)
    requires forall c <- s :: ' ' <= c <= '~' && c != '"' && c != '\\'
    ensures Escape(s) == s
  {
    if s != "" {
      hide CodeUnit;
      assert s[0] in s && forall c <- s[1..] :: c in s;
      assert EscapeChar(s[0]) == [s[0]];
      EscapePlain(s[1..]);
      assert s == [s[0]] + s[1..];
    }
  }

  /** A reader of results: the number up to the comma, and the text after the second name. */
  function ReadResult(s: string): Option<(int, string)> {
    var head, middle := "{\"status\": ", " \"message\": \"";
    if !(head <= s) then None
    else
      var n := IndexOf(s[|head|..], ',');
      var rest := s[|head|..][n..];
      if rest == "" || !(middle <= rest[1..]) then None
      else
        match (Atoi(s[|head|..][..n]), ReadText(rest[1..][|middle|..]))
        case (Some(status), Some((message, "}"))) => Some((status, message))
        case _ => None
  }

  /** Both parts of a result are read back from its text. */
  lemma ResultRead(status: int, message: string)
    requires MIN_INT <= status <= MAX_INT
    ensures ReadResult(ResultText(status, message)) == Some((status, message))
  {
    hide Itoa, Atoi, Escape, ReadText;
    var head, middle := "{\"status\": ", " \"message\": \"";
    var number, tail := Itoa(status), Escape(message) + ['"'] + "}";
    ResultParts(status, message);
    var s := ResultText(status, message);
    assert s[|head|..] == number + [','] + (middle + tail);
    NumberFree(status);
    IndexOfAppend(number, ',', middle + tail);
    assert s[|head|..][..|number|] == number;
    assert s[|head|..][|number|..][1..] == middle + tail;
    assert (middle + tail)[|middle|..] == tail;
    ItoaRoundTrip(status);
    EscapeRead(message, "}");
  }

  lemma NumberFree(n: int)
    ensures ',' !in Itoa(n)
  {
    if n < 0 {
      DigitsOnly(-n);
    } else {
      DigitsOnly(n);
    }
  }

  lemma QuotedFirst(part: string, rest: seq<string>)
    requires rest != []
    ensures Quoted([part] + rest) == part + ['"'] + Quoted(rest)
  {
    assert ([part] + rest)[1..] == rest;
  }

  lemma ResultParts(status: int, message: string)
    ensures ResultText(status, message)
         == "{\"status\": " + (Itoa(status) + [','] + (" \"message\": \"" + (Escape(message) + ['"'] + "}")))
  {
    hide Itoa, Escape, Quoted;
    var number, m := Itoa(status), Escape(message);
    var q6 := ["}"];
    QuotedLast("}");
    QuotedFirst(m, q6);
    var q5 := [m] + q6;
    QuotedFirst(": ", q5);
    var q4 := [": "] + q5;
    QuotedFirst("message", q4);
    var q3 := ["message"] + q4;
    QuotedFirst(": " + number + ", ", q3);
    var q2 := [": " + number + ", "] + q3;
    QuotedFirst("status", q2);
    var q1 := ["status"] + q2;
    QuotedFirst("{", q1);
    assert ["{"] + q1 == ["{", "status", ": " + number + ", ", "message", ": ", m, "}"];
    ResultRegroup(number, m);
  }

  lemma QuotedLast(part: string)
    ensures Quoted([part]) == part
  {
  }

  lemma ResultRegroup(number: string, m: string)
    ensures "{" + ['"'] + ("status" + ['"'] + (": " + number + ", " + ['"'] + ("message" + ['"'] + (": " + ['"'] + (m + ['"'] + "}")))))
         == "{\"status\": " + (number + [','] + (" \"message\": \"" + (m + ['"'] + "}")))
  {
    var tail := m + ['"'] + "}";
    assert "message" + ['"'] + (": " + ['"'] + tail) == "message\": \"" + tail;
    assert ", " + ['"'] + ("message\": \"" + tail) == [','] + (" \"message\": \"" + tail);
    assert "{" + ['"'] + ("status" + ['"'] + (": " + (number + ([','] + (" \"message\": \"" + tail)))))
        == "{\"status\": " + (number + [','] + (" \"message\": \"" + tail));
  }

  lemma ItoaLower(n: int)
    ensures forall c <- Itoa(n) :: !('A' <= c <= 'Z')
  {
    if n < 0 {
      DigitsOnly(-n);
    } else {
      DigitsOnly(n);
    }
  }
}
