/** The status log of an update: written when an update ends or a reboot is due, resolved after the reboot. */
module UpdateLog {
  import opened JsonText
  import opened Options
  import opened PyStrings

  const OTA_SUCCESS := "SUCCESS"
  const OTA_FAIL := "FAIL"
  const OTA_PENDING := "PENDING"

  /** `s.replace(p, r)`: every occurrence from the left, without overlap */
  function Replace(s: string, p: string, r: string): string
    requires p != ""
    decreases |s|
  {
    if s == "" then ""
    else if p <= s then r + Replace(s[|p|..], p, r)
    else [s[0]] + Replace(s[1..], p, r)
  }

  /** A replacement that cannot take part in a new occurrence of the pattern. */
  predicate Inert(p: string, r: string) {
    r != "" && |r| <= |p| && r[0] !in p && r[|r| - 1] !in p
  }

  lemma ReplacedHead(s: string, p: string, r: string)
    requires p != "" && r != "" && p <= s
    ensures Replace(s, p, r) != "" && Replace(s, p, r)[0] == r[0]
  {
    assert s != "";
  }

  /** A text free of the first character of the replacement that begins the result began the original. */
  lemma {:induction false} ReplacePrefix(s: string, p: string, r: string, q: string)
    requires p != "" && r != "" && r[0] !in q
    requires q <= Replace(s, p, r)
    ensures q <= s
  {
    if q != "" {
      var t := Replace(s, p, r);
      assert q[0] == t[0] && q[0] in q;
      if p <= s {
        ReplacedHead(s, p, r);
      } else {
        assert t[1..] == Replace(s[1..], p, r);
        assert q[1..] <= t[1..];
        ReplacePrefix(s[1..], p, r, q[1..]);
        assert q == [q[0]] + q[1..] && s == [s[0]] + s[1..];
      }
    }
  }

  /** A match that begins in `r` and reaches its end contains its last character. */
  lemma MatchCoversEnd(p: string, r: string, rest: string, k: nat)
    requires k < |r| <= k + |p| && MatchesAt(r + rest, p, k)
    ensures r[|r| - 1] in p
  {
    var s := r + rest;
    var i := |r| - 1 - k;
    assert s[k..k + |p|][i] == s[k + i] == r[|r| - 1];
    assert p[i] == r[|r| - 1];
  }

  lemma MatchBeyond(p: string, r: string, rest: string, k: nat)
    requires |r| <= k && MatchesAt(r + rest, p, k)
    ensures MatchesAt(rest, p, k - |r|)
  {
    assert (r + rest)[k..k + |p|] == rest[k - |r|..k - |r| + |p|];
  }

  lemma NoMatchAcross(p: string, r: string, rest: string, k: int)
    requires Inert(p, r)
    requires forall j :: !MatchesAt(rest, p, j)
    ensures !MatchesAt(r + rest, p, k)
  {
    if MatchesAt(r + rest, p, k) {
      if k >= |r| {
        MatchBeyond(p, r, rest, k);
      } else {
        MatchCoversEnd(p, r, rest, k);
      }
    }
  }

  /** After replacing by an inert text, the pattern is gone for good. */
  lemma {:induction false} ReplaceRemoves(s: string, p: string, r: string)
    requires p != "" && Inert(p, r)
    ensures forall k :: !MatchesAt(Replace(s, p, r), p, k)
    decreases |s|
  {
    var t := Replace(s, p, r);
    if s == "" {
    } else if p <= s {
      ReplaceRemoves(s[|p|..], p, r);
      forall k
        ensures !MatchesAt(t, p, k)
      {
        NoMatchAcross(p, r, Replace(s[|p|..], p, r), k);
      }
    } else {
      ReplaceRemoves(s[1..], p, r);
      var rest := Replace(s[1..], p, r);
      forall k
        ensures !MatchesAt(t, p, k)
      {
        if MatchesAt(t, p, k) {
          if k > 0 {
            MatchBeyond(p, [s[0]], rest, k);
          } else {
            StartsWithPattern(s, p, r);
          }
        }
      }
    }
  }

  /** A result that starts with the pattern came from a text that does, unless the pattern was replaced. */
  lemma StartsWithPattern(s: string, p: string, r: string)
    requires p != "" && s != "" && Inert(p, r)
    requires MatchesAt([s[0]] + Replace(s[1..], p, r), p, 0)
    ensures p <= s
  {
    var t := [s[0]] + Replace(s[1..], p, r);
    assert t[..|p|] == p;
    var q := p[1..];
    assert p == [p[0]] + q;
    assert forall c <- q :: c in p;
    assert q == t[1..][..|q|];
    assert t[1..] == Replace(s[1..], p, r);
    ReplacePrefix(s[1..], p, r, q);
    assert s == [s[0]] + s[1..];
  }

  /** Without an occurrence nothing is replaced. */
  lemma {:induction false} ReplaceAbsent(s: string, p: string, r: string)
    requires p != "" && forall k :: !MatchesAt(s, p, k)
    ensures Replace(s, p, r) == s
    decreases |s|
  {
    if s != "" {
      assert !MatchesAt(s, p, 0);
      forall k
        ensures !MatchesAt(s[1..], p, k)
      {
        if 0 <= k && k + |p| <= |s| - 1 {
          assert s[1..][k..k + |p|] == s[k + 1..k + 1 + |p|];
          assert !MatchesAt(s, p, k + 1);
        }
      }
      ReplaceAbsent(s[1..], p, r);
      assert s == [s[0]] + s[1..];
    }
  }

  /** The text still holds the verdict that a reboot is to decide. */
  ghost predicate Pending(text: string) {
    Contains(text, OTA_PENDING)
  }

  /** Resolving a text with SUCCESS or FAIL settles it: no later resolution changes it. */
  lemma ResolvesOnce(text: string, status: string, later: string)
    requires status == OTA_SUCCESS || status == OTA_FAIL
    ensures !Pending(Replace(text, OTA_PENDING, status))
    ensures Replace(Replace(text, OTA_PENDING, status), OTA_PENDING, later) == Replace(text, OTA_PENDING, status)
  {
    VerdictsInert();
    ReplaceRemoves(text, OTA_PENDING, status);
    ReplaceAbsent(Replace(text, OTA_PENDING, status), OTA_PENDING, later);
  }

  /** A shorter replacement gives a shorter text, if anything is replaced. */
  lemma {:induction false} ReplaceShorter(s: string, p: string, r: string, longer: string)
    requires p != "" && |r| < |longer|
    ensures |Replace(s, p, r)| <= |Replace(s, p, longer)|
    ensures Contains(s, p) ==> |Replace(s, p, r)| < |Replace(s, p, longer)|
    decreases |s|
  {
    if s == "" {
      assert !Contains("", p);
    } else if p <= s {
      ReplaceShorter(s[|p|..], p, r, longer);
    } else {
      hide Contains;
      ReplaceShorter(s[1..], p, r, longer);
      assert s == [s[0]] + s[1..];
      ContainsNext(s[0], s[1..], p);
    }
  }

  /** The two verdicts leave different texts, and both differ from the pending one. */
  lemma VerdictsDiffer(text: string)
    requires Pending(text)
    ensures Replace(text, OTA_PENDING, "SUCCESS") != Replace(text, OTA_PENDING, "FAIL")
    ensures Replace(text, OTA_PENDING, "SUCCESS") != text && Replace(text, OTA_PENDING, "FAIL") != text
  {
    hide Replace, Contains;
    ResolvesOnce(text, OTA_SUCCESS, "");
    ResolvesOnce(text, OTA_FAIL, "");
    ReplaceShorter(text, OTA_PENDING, "FAIL", "SUCCESS");
  }

  lemma VerdictsInert()
    ensures Inert(OTA_PENDING, OTA_SUCCESS) && Inert(OTA_PENDING, OTA_FAIL)
  {
    assert OTA_SUCCESS[0] == 'S' && OTA_SUCCESS[6] == 'S' && OTA_FAIL[0] == 'F' && OTA_FAIL[3] == 'L';
    assert OTA_PENDING == ['P', 'E', 'N', 'D', 'I', 'N', 'G'];
  }

  /** A time as `strftime` writes it for the log */
  type ClockText = s: string | forall c <- s :: '0' <= c <= ':' || c == '-' || c == ' '

  datatype Record = Record(status: string, otaType: string, time: ClockText, metadata: string, error: string)

  function Fields(r: Record): seq<(string, string)> {
    [("Status", Escape(r.status)), ("Type", Escape(r.otaType)), ("Time", r.time),
     ("Metadata", Escape(r.metadata)), ("Error", Escape(r.error)), ("Version", "v1")]
  }

  /** What `save_log` writes: the record as a JSON object, with the format version. */
  function RenderLog(r: Record): string {
    "{" + Members(Fields(r))
  }

  lemma FieldNames(r: Record)
    ensures forall f <- Fields(r) :: 'P' !in f.0
  {
    hide Escape;
    assert 'P' !in "Status" && 'P' !in "Type" && 'P' !in "Time" && 'P' !in "Metadata" && 'P' !in "Error" && 'P' !in "Version";
  }

  lemma FieldsPending(r: Record)
    ensures (exists f <- Fields(r) :: Pending(f.1))
       <==> Pending(r.status) || Pending(r.otaType) || Pending(r.metadata) || Pending(r.error)
  {
    hide Escape, Contains;
    var fields := Fields(r);
    VerdictLetters();
    ContainedFirst(r.time, OTA_PENDING);
    ContainedFirst("v1", OTA_PENDING);
    EscapeContains(r.status, OTA_PENDING);
    EscapeContains(r.otaType, OTA_PENDING);
    EscapeContains(r.metadata, OTA_PENDING);
    EscapeContains(r.error, OTA_PENDING);
    assert fields[0] in fields && fields[1] in fields && fields[3] in fields && fields[4] in fields;
  }

  lemma VerdictLetters()
    ensures Capitals(OTA_PENDING) && OTA_PENDING[0] == 'P'
  {
  }

  /** The text says PENDING exactly when the status, the type, the manifest or the error does. */
  lemma RenderLogPending(r: Record)
    ensures Pending(RenderLog(r)) <==> Pending(r.status) || Pending(r.otaType) || Pending(r.metadata) || Pending(r.error)
  {
    hide Fields, Members, Contains;
    VerdictLetters();
    FieldNames(r);
    FieldsPending(r);
    ContainsAfter("{", Members(Fields(r)), OTA_PENDING);
    MembersContain(Fields(r), OTA_PENDING);
  }

  /** A JSON reader finds every field of the record under its own name, whatever the texts are. */
  lemma LogRead(r: Record)
    ensures ReadObject(RenderLog(r)) ==
      Some([("Status", r.status), ("Type", r.otaType), ("Time", r.time), ("Metadata", r.metadata), ("Error", r.error), ("Version", "v1")])
  {
    hide Escape, Members, ReadMembers;
    var fields := [("Status", r.status), ("Type", r.otaType), ("Time", r.time), ("Metadata", r.metadata), ("Error", r.error), ("Version", "v1")];
    EscapePlain("Status");
    EscapePlain("Type");
    EscapePlain("Time");
    EscapePlain("Metadata");
    EscapePlain("Error");
    EscapePlain("Version");
    EscapePlain("v1");
    EscapePlain(r.time);
    EscapedFields(fields, Fields(r));
    MembersRead(fields);
    assert RenderLog(r)[1..] == Members(Fields(r));
  }

  lemma {:induction false} EscapedFields(fields: seq<(string, string)>, escaped: seq<(string, string)>)
    requires |fields| == |escaped|
    requires forall i | 0 <= i < |fields| :: escaped[i] == (Escape(fields[i].0), Escape(fields[i].1))
    ensures Escaped(fields) == escaped
  {
    hide Escape;
    if fields != [] {
      EscapedFields(fields[1..], escaped[1..]);
    }
  }

  lemma {:induction false} ReplaceAfter(head: string, s: string, p: string, r: string)
    requires p != "" && p[0] !in head
    ensures Replace(head + s, p, r) == head + Replace(s, p, r)
  {
    if head == "" {
      assert head + s == s;
    } else {
      assert (head + s)[0] == head[0] && (head + s)[1..] == head[1..] + s;
      ReplaceAfter(head[1..], s, p, r);
    }
  }

  lemma ReplaceHere(tail: string, p: string, r: string)
    requires p != ""
    ensures Replace(p + tail, p, r) == r + Replace(tail, p, r)
  {
    assert (p + tail)[|p|..] == tail;
  }

  lemma NotContained(s: string, p: string)
    requires !Contains(s, p)
    ensures forall k :: !MatchesAt(s, p, k)
  {
  }

  /** What comes before and after the status. */
  const LOG_HEAD := "{\"Status\": \""

  function LogTail(r: Record): string {
    "\", " + Members(Fields(r)[1..])
  }

  /** The status comes first, and nothing else depends on it. */
  lemma StatusFirst(r: Record, status: string)
    ensures RenderLog(r.(status := status)) == LOG_HEAD + (Escape(status) + LogTail(r))
  {
    hide Escape;
    var fields := Fields(r.(status := status));
    assert fields == [("Status", Escape(status))] + Fields(r)[1..];
    FirstMember("Status", Escape(status), Fields(r)[1..]);
  }

  lemma FirstMember(name: string, value: string, rest: seq<(string, string)>)
    requires rest != []
    ensures Members([(name, value)] + rest) == "\"" + name + "\": \"" + (value + ("\", " + Members(rest)))
  {
    hide Members;
    MembersParts(name, value, rest);
    assert "\", " + Members(rest) == ['"'] + (", " + Members(rest));
    assert ['"'] + (name + ['"'] + (": \"" + (value + ['"'] + (", " + Members(rest)))))
        == "\"" + name + "\": \"" + (value + ("\", " + Members(rest)));
  }

  lemma TailSettled(r: Record)
    requires !Pending(r.otaType) && !Pending(r.metadata) && !Pending(r.error)
    ensures !Pending(LogTail(r))
  {
    hide Members, Escape, Contains;
    var rest := Fields(r)[1..];
    VerdictLetters();
    FieldNames(r);
    OtherFields(r);
    assert forall f <- rest :: f in Fields(r);
    MembersContain(rest, OTA_PENDING);
    ContainsAfter("\", ", Members(rest), OTA_PENDING);
  }

  lemma OtherFields(r: Record)
    requires !Pending(r.otaType) && !Pending(r.metadata) && !Pending(r.error)
    ensures forall f <- Fields(r)[1..] :: !Pending(f.1)
  {
    hide Escape, Contains;
    VerdictLetters();
    ContainedFirst(r.time, OTA_PENDING);
    ContainedFirst("v1", OTA_PENDING);
    EscapeContains(r.otaType, OTA_PENDING);
    EscapeContains(r.metadata, OTA_PENDING);
    EscapeContains(r.error, OTA_PENDING);
  }

  /** Where only the status is pending, the verdict takes its place and nothing else changes. */
  lemma VerdictReplaces(r: Record, verdict: string)
    requires r.status == OTA_PENDING && verdict in {OTA_SUCCESS, OTA_FAIL}
    requires !Pending(r.otaType) && !Pending(r.metadata) && !Pending(r.error)
    ensures Replace(RenderLog(r), OTA_PENDING, verdict) == RenderLog(r.(status := verdict))
  {
    hide Replace, LogTail, RenderLog, Escape, Contains;
    var tail := LogTail(r);
    StatusFirst(r, OTA_PENDING);
    StatusFirst(r, verdict);
    assert r.(status := OTA_PENDING) == r;
    EscapePlain(OTA_PENDING);
    EscapePlain(verdict);
    assert OTA_PENDING[0] !in LOG_HEAD;
    ReplaceAfter(LOG_HEAD, OTA_PENDING + tail, OTA_PENDING, verdict);
    ReplaceHere(tail, OTA_PENDING, verdict);
    TailSettled(r);
    NotContained(tail, OTA_PENDING);
    ReplaceAbsent(tail, OTA_PENDING, verdict);
  }

  /** How writing the log file ends: an OSError is swallowed, whatever it leaves of the file. */
  datatype LogWrite = Written | Unwritten(left: Option<string>)

  class UpdateLogger {
    var status: string
    var otaType: string
    var time: ClockText
    var metadata: string
    var error: string
    /** the log file, if there is one */
    var file: Option<string>

    constructor (time: ClockText, file: Option<string>)
      ensures this.file == file && Now() == Record("", "", time, "", "")
    {
      this.file, this.time := file, time;
      status, otaType, metadata, error := "", "", "", "";
    }

    function Now(): Record
      reads this
    {
      Record(status, otaType, time, metadata, error)
    }

    method WriteLogFile(log: string, write: LogWrite)
      modifies this`file
      ensures file == if write.Written? then Some(log) else write.left
    {
      match write
      case Written => file := Some(log);
      case Unwritten(left) => file := left;
    }

    method SaveLog(write: LogWrite)
      modifies this`file
      ensures file == if write.Written? then Some(RenderLog(Now())) else write.left
    {
      WriteLogFile(RenderLog(Record(status, otaType, time, metadata, error)), write);
    }

    /** Puts the verdict in place of PENDING, wherever the file says so; nothing is done if it cannot be read. */
    method UpdateLog(verdict: string, readable: bool, write: LogWrite)
      modifies this`file
      ensures file == if !readable || old(file).None? || old(file) == Some("") then old(file)
                      else if write.Written? then Resolved(old(file), verdict) else write.left
      ensures readable && write.Written? ==> file == Resolved(old(file), verdict)
    {
      if readable && file.Some? && file.value != "" {
        WriteLogFile(Replace(file.value, OTA_PENDING, verdict), write);
      }
    }
  }

  function Resolved(file: Option<string>, verdict: string): Option<string> {
    match file
    case None => None
    case Some(text) => Some(Replace(text, OTA_PENDING, verdict))
  }

  ghost predicate PendingFile(file: Option<string>) {
    file.Some? && Pending(file.value)
  }

  /** A resolved file is settled. */
  lemma ResolvedIsSettled(file: Option<string>, verdict: string, later: string)
    requires verdict == OTA_SUCCESS || verdict == OTA_FAIL
    ensures !PendingFile(Resolved(file, verdict))
    ensures Resolved(Resolved(file, verdict), later) == Resolved(file, verdict)
  {
    if file.Some? {
      ResolvesOnce(file.value, verdict, later);
    }
  }

  /** A file that is not pending is not changed by a verdict. */
  lemma SettledStays(file: Option<string>, verdict: string)
    requires !PendingFile(file)
    ensures Resolved(file, verdict) == file
  {
    if file.Some? {
      ReplaceAbsent(file.value, OTA_PENDING, verdict);
    }
  }
}
