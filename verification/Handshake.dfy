/** The HTTP handshake reader of src/websocket.h (section 4.2.1 of RFC 6455): an in-place
    parser over one 4096-byte buffer that is shifted and refilled between short reads. */
module Handshake {
  import opened Streams
  import opened Options

  const BUFFER_SIZE: nat := 4096
  const SECKEY_LEN: nat := 24
  const NUL: char := '\0'

  /** The bits of the `ok` mask. */
  datatype Field = Get | GetPath | Upgrade | Connection | SecVersion | Version | SecKey | Host

  const ALL_FIELDS: set<Field> := {Get, GetPath, Upgrade, Connection, SecVersion, Version, SecKey, Host}

  // ---- Lines ----

  /** Index of the first `c` in `s`, or |s|. */
  function IndexOf(s: string, c: char): (i: nat)
    ensures i <= |s|
    ensures forall j :: 0 <= j < i ==> s[j] != c
    ensures i < |s| ==> s[i] == c
  {
    if s == [] || s[0] == c then 0 else 1 + IndexOf(s[1..], c)
  }

  lemma {:induction false} IndexOfIs(s: string, c: char, i: nat)
    requires i <= |s| && (forall j :: 0 <= j < i ==> s[j] != c)
    requires i < |s| ==> s[i] == c
    ensures IndexOf(s, c) == i
  {
    if 0 < i {
      assert s[0] != c;
      IndexOfIs(s[1..], c, i - 1);
    }
  }

  /** A line without its end: a final CR belongs to the line end. */
  function Content(line: string): (l: string)
    ensures |l| <= |line| <= |l| + 1
  {
    if line != [] && line[|line| - 1] == '\r' then line[..|line| - 1] else line
  }

  predicate HasColon(l: string) {
    IndexOf(l, ':') < |l|
  }

  function KeyOf(l: string): string {
    l[..IndexOf(l, ':')]
  }

  /** The colon is not the end of the line. */
  predicate HasRoom(l: string) {
    IndexOf(l, ':') + 2 <= |l|
  }

  /** The value starts two characters after the colon, whatever the character between.  Behind a
      colon that ends the line there is none. */
  function ValueOf(l: string): string {
    if HasColon(l) && HasRoom(l) then l[IndexOf(l, ':') + 2..] else []
  }

  /** The names whose values matter. */
  const NAMES: set<string> := {"Upgrade", "Connection", "Sec-WebSocket-Version", "Sec-WebSocket-Key", "Host"}

  /** Behind a colon that ends the line, the code takes for a value what is two characters further:
      the newline and what follows it in the buffer, or, if there is no CR, what follows the
      newline.  This can matter. */
  predicate Unbounded(line: string) {
    var l := Content(line);
    HasColon(l) && !HasRoom(l) && (KeyOf(l) == "Sec-WebSocket-Key" || (l == line && KeyOf(l) in NAMES))
  }

  /** What the parser asks of a complete line: no NUL, and that its value ends with it if the
      value matters. */
  predicate GoodLine(line: string, first: bool) {
    NUL !in line && (!first ==> !Unbounded(line))
  }

  /** What the code may read as the value of a header line. */
  predicate Reads(l: string, value: string) {
    if HasRoom(l) then value == ValueOf(l)
    else KeyOf(l) !in NAMES || (KeyOf(l) != "Sec-WebSocket-Key" && value != [] && value[0] == '\n')
  }

  /** Reading on behind a line does not matter then. */
  lemma ReadsAlike(l: string, value: string, host: string, key: string)
    requires HasColon(l) && Reads(l, value) && "localhost:" <= host
    ensures HeaderFields(KeyOf(l), value, host) == HeaderFields(KeyOf(l), ValueOf(l), host)
    ensures NextKey(KeyOf(l), value, key) == NextKey(KeyOf(l), ValueOf(l), key)
  {
    if !HasRoom(l) {
      assert ValueOf(l) == [] && host[0] == 'l';
      assert value != [] && value[0] == '\n' ==> value != "websocket" && value != "Upgrade" && value != "13" by {
        assert "websocket"[0] == 'w' && "Upgrade"[0] == 'U' && "13"[0] == '1';
      }
    }
  }

  // ---- Meaning of the lines ----

  function SkipSpaces(l: string): (r: string)
    ensures |r| <= |l|
    ensures r != [] ==> r[0] != ' '
  {
    if l != [] && l[0] == ' ' then SkipSpaces(l[1..]) else l
  }

  /** The tokens that successive calls of strtok with " " return. */
  function Tokens(l: string): seq<string>
    decreases |l|
  {
    var t := SkipSpaces(l);
    if t == [] then []
    else
      var e := IndexOf(t, ' ');
      [t[..e]] + Tokens(t[e..])
  }

  function RequestFields(l: string): set<Field> {
    var t := Tokens(l);
    if |t| < 1 || t[0] != "GET" then {}
    else
      (if |t| > 1 && t[1] == "/" then {GetPath} else {})
      + (if |t| > 2 && t[2] == "HTTP/1.1" then {Get} else {})
  }

  function HeaderFields(key: string, value: string, host: string): set<Field> {
    if key == "Upgrade" && value == "websocket" then {Upgrade}
    else if key == "Connection" && value == "Upgrade" then {Connection}
    else if key == "Sec-WebSocket-Version" then if value == "13" then {SecVersion, Version} else {SecVersion}
    else if key == "Sec-WebSocket-Key" then if |value| == SECKEY_LEN then {SecKey} else {}
    else if key == "Host" && value == host then {Host}
    else {}
  }

  function NextKey(key: string, value: string, current: string): string {
    if key == "Sec-WebSocket-Key" && |value| == SECKEY_LEN then value else current
  }

  // ---- The parser as a function of the bytes ----

  datatype Outcome =
    | Dropped
    | Refused(ok: set<Field>)
    | Accepted(key: string)

  function Verdict(ok: set<Field>, key: string): Outcome {
    if ok == ALL_FIELDS then Accepted(key) else Refused(ok)
  }

  /** The streams on which the parser reads nothing but what it received. */
  predicate WellFormed(s: string, first: bool)
    decreases |s|
  {
    var e := IndexOf(s, '\n');
    (e < |s| && e < BUFFER_SIZE ==>
       && GoodLine(s[..e], first)
       && (Content(s[..e]) != [] && (first || HasColon(Content(s[..e]))) ==> WellFormed(s[e + 1..], false)))
  }

  /** Splits off one line after the other; no mention of reads, buffers or shifts. */
  function Parse(s: string, first: bool, ok: set<Field>, key: string, host: string): Outcome
    requires WellFormed(s, first)
    decreases |s|
  {
    var e := IndexOf(s, '\n');
    if e == |s| || e >= BUFFER_SIZE then Dropped
    else
      var l := Content(s[..e]);
      if l == [] then Verdict(ok, key)
      else if first then Parse(s[e + 1..], false, ok + RequestFields(l), key, host)
      else if !HasColon(l) then Refused({})
      else
        var k, v := KeyOf(l), ValueOf(l);
        Parse(s[e + 1..], false, ok + HeaderFields(k, v, host), NextKey(k, v, key), host)
  }

  /** The answer to a refused handshake. */
  function ErrorAnswer(ok: set<Field>): string {
    if Get in ok && (GetPath !in ok || ok !! {Upgrade, Connection, SecVersion, Version, SecKey}) then
      "HTTP/1.1 404 Not Found\r\n\r\n<h1>404 Not Found</h1>"
    else if {Get, Upgrade, Connection, SecVersion} <= ok && Version !in ok then
      "HTTP/1.1 400 Bad Request\r\nSec-WebSocket-Version: 13\r\n\r\n"
    else "HTTP/1.1 400 Bad Request\r\n\r\n<h1>400 Bad Request</h1>"
  }

  // ---- What acceptance means ----

  /** The complete lines up to the blank one, or, without one, all of them. */
  datatype Text = Text(lines: seq<string>, ended: bool)

  /** Splits at once and without a length limit. */
  function SplitLines(s: string): Text
    decreases |s|
  {
    var e := IndexOf(s, '\n');
    if e == |s| then Text([], false)
    else if Content(s[..e]) == [] then Text([], true)
    else
      var more := SplitLines(s[e + 1..]);
      Text([s[..e]] + more.lines, more.ended)
  }

  /** A header line has a colon. */
  predicate IsHeader(line: string) {
    HasColon(Content(line))
  }

  function LineFields(line: string, host: string): set<Field> {
    var l := Content(line);
    if IsHeader(line) then HeaderFields(KeyOf(l), ValueOf(l), host) else {}
  }

  function LineKey(line: string, key: string): string {
    var l := Content(line);
    if IsHeader(line) then NextKey(KeyOf(l), ValueOf(l), key) else key
  }

  function FieldsOf(headers: seq<string>, host: string): set<Field> {
    if headers == [] then {} else LineFields(headers[0], host) + FieldsOf(headers[1..], host)
  }

  function LastKey(headers: seq<string>, key: string): string {
    if headers == [] then key else LastKey(headers[1..], LineKey(headers[0], key))
  }

  predicate Readable(lines: seq<string>) {
    forall h :: h in lines ==> |h| < BUFFER_SIZE
  }

  predicate AllHeaders(lines: seq<string>) {
    forall h :: h in lines ==> IsHeader(h)
  }

  predicate Bad(line: string) {
    |line| >= BUFFER_SIZE || !IsHeader(line)
  }

  /** Index of the first header line that is too long or has no colon, or |lines|. */
  function FirstBad(lines: seq<string>): (i: nat)
    ensures i <= |lines|
    ensures forall j :: 0 <= j < i ==> !Bad(lines[j])
    ensures i < |lines| ==> Bad(lines[i])
  {
    if lines == [] || Bad(lines[0]) then 0 else 1 + FirstBad(lines[1..])
  }

  /** How the outcome follows from the header lines, split at once: the first bad line decides,
      being dropped if it has more than 4096 bytes with its newline, and refused if it has no
      colon; without one, and without a blank line, the connection is dropped; otherwise the
      fields decide. */
  predicate Explains(r: Outcome, t: Text, ok: set<Field>, key: string, host: string) {
    var i := FirstBad(t.lines);
    if i < |t.lines| then r == if |t.lines[i]| >= BUFFER_SIZE then Dropped else Refused({})
    else if t.ended then r == Verdict(ok + FieldsOf(t.lines, host), LastKey(t.lines, key))
    else r == Dropped
  }

  /** The same with the request line, which may only be too long. */
  predicate ExplainsAll(r: Outcome, t: Text, host: string) {
    if t.lines == [] then r == if t.ended then Refused({}) else Dropped
    else if |t.lines[0]| >= BUFFER_SIZE then r == Dropped
    else Explains(r, Text(t.lines[1..], t.ended), RequestFields(Content(t.lines[0])), "", host)
  }

  /** One line. */
  lemma ParseStep(s: string, first: bool, ok: set<Field>, key: string, host: string)
    requires WellFormed(s, first)
    ensures var e := IndexOf(s, '\n');
            if e == |s| || e >= BUFFER_SIZE then Parse(s, first, ok, key, host) == Dropped
            else GoodLine(s[..e], first) && ParsedStep(Parse(s, first, ok, key, host), Content(s[..e]), s[e + 1..],
                                                       first, ok, key, host)
  {
    hide HeaderFields, NextKey, RequestFields, IndexOf, Verdict;
  }

  predicate ParsedStep(r: Outcome, l: string, rest: string, first: bool, ok: set<Field>, key: string, host: string) {
    if l == [] then r == Verdict(ok, key)
    else if first then
      WellFormed(rest, false) && r == Parse(rest, false, ok + RequestFields(l), key, host)
    else if !HasColon(l) then r == Refused({})
    else
      && WellFormed(rest, false)
      && r == Parse(rest, false, ok + HeaderFields(KeyOf(l), ValueOf(l), host), NextKey(KeyOf(l), ValueOf(l), key),
                    host)
  }

  /** What the parser makes of the header lines after the request line. */
  lemma {:induction false} ParsesHeaders(s: string, ok: set<Field>, key: string, host: string)
    requires WellFormed(s, false)
    ensures Explains(Parse(s, false, ok, key, host), SplitLines(s), ok, key, host)
    decreases |s|
  {
    hide Parse, LineFields, LineKey, IsHeader, Content, Verdict, HasColon, WellFormed;
    var e := IndexOf(s, '\n');
    var t := SplitLines(s);
    ParseLine(s, ok, key, host);
    if e == |s| {
    } else if Content(s[..e]) == [] {
      assert ok + FieldsOf([], host) == ok;
    } else if Bad(s[..e]) {
      assert t.lines[0] == s[..e];
    } else {
      var ok', key' := ok + LineFields(s[..e], host), LineKey(s[..e], key);
      ParsesHeaders(s[e + 1..], ok', key', host);
      ExplainsMore(Parse(s, false, ok, key, host), s[..e], SplitLines(s[e + 1..]), ok, key, host);
    }
  }

  lemma ExplainsMore(r: Outcome, line: string, more: Text, ok: set<Field>, key: string, host: string)
    requires !Bad(line)
    requires Explains(r, more, ok + LineFields(line, host), LineKey(line, key), host)
    ensures Explains(r, Text([line] + more.lines, more.ended), ok, key, host)
  {
    hide Bad, LineFields, LineKey;
    var lines := [line] + more.lines;
    assert lines[0] == line && lines[1..] == more.lines;
    assert ok + FieldsOf(lines, host) == ok + LineFields(line, host) + FieldsOf(more.lines, host);
  }

  /** What the parser makes of everything. */
  lemma ParsesAll(s: string, host: string)
    requires WellFormed(s, true)
    ensures ExplainsAll(Parse(s, true, {}, "", host), SplitLines(s), host)
  {
    hide Parse, RequestFields, Content, Explains;
    var e := IndexOf(s, '\n');
    ParseRequest(s, host);
    if e < |s| && Content(s[..e]) != [] {
      var t := SplitLines(s);
      assert t.lines[0] == s[..e] && t.lines[1..] == SplitLines(s[e + 1..]).lines;
      if e < BUFFER_SIZE {
        ParsesHeaders(s[e + 1..], RequestFields(Content(s[..e])), "", host);
      }
    }
  }

  /** One header line. */
  lemma ParseLine(s: string, ok: set<Field>, key: string, host: string)
    requires WellFormed(s, false)
    ensures IndexOf(s, '\n') == |s| || IndexOf(s, '\n') >= BUFFER_SIZE ==> Parse(s, false, ok, key, host) == Dropped
    ensures IndexOf(s, '\n') < |s| && IndexOf(s, '\n') < BUFFER_SIZE ==>
              ParsedLine(Parse(s, false, ok, key, host), s[..IndexOf(s, '\n')], s[IndexOf(s, '\n') + 1..],
                         ok, key, host)
  {
    hide Parse, WellFormed, HeaderFields, NextKey, KeyOf, ValueOf, RequestFields, Content, IndexOf, Verdict;
    ParseStep(s, false, ok, key, host);
  }

  predicate ParsedLine(r: Outcome, line: string, rest: string, ok: set<Field>, key: string, host: string) {
    if Content(line) == [] then r == Verdict(ok, key)
    else if !HasColon(Content(line)) then r == Refused({}) && !IsHeader(line)
    else
      && IsHeader(line) && WellFormed(rest, false)
      && r == Parse(rest, false, ok + LineFields(line, host), LineKey(line, key), host)
  }

  // ---- The acceptance theorems ----

  predicate GoodRequest(l: string) {
    RequestFields(Content(l)) == {Get, GetPath}
  }

  /** Every required field occurs with a good value. */
  predicate AllPresent(headers: seq<string>, host: string) {
    forall f: Field | f in ALL_FIELDS - {Get, GetPath} :: exists h :: h in headers && f in LineFields(h, host)
  }

  predicate Acceptable(lines: seq<string>, host: string) {
    && lines != [] && Readable(lines) && GoodRequest(lines[0])
    && AllHeaders(lines[1..]) && AllPresent(lines[1..], host)
  }

  lemma {:induction false} FieldsOfIs(headers: seq<string>, host: string, f: Field)
    ensures f in FieldsOf(headers, host) <==> exists h :: h in headers && f in LineFields(h, host)
    ensures f in FieldsOf(headers, host) ==> f !in {Get, GetPath}
  {
    hide LineFields;
    if headers != [] {
      FieldsOfIs(headers[1..], host, f);
      LineFieldsIs(headers[0], host);
      assert forall h :: h in headers <==> h == headers[0] || h in headers[1..];
    }
  }

  lemma LineFieldsIs(h: string, host: string)
    ensures LineFields(h, host) !! {Get, GetPath}
  {
  }

  /** The handshake is accepted if and only if the header is complete, no line is longer than
      the buffer, the request line reads GET / HTTP/1.1, every header line has a colon and
      each required field occurs with a good value; the key is then the last valid one. */
  lemma Acceptance(s: string, host: string)
    requires WellFormed(s, true)
    ensures Parse(s, true, {}, "", host).Accepted?
       <==> SplitLines(s).ended && Acceptable(SplitLines(s).lines, host)
    ensures Parse(s, true, {}, "", host).Accepted? ==>
              Parse(s, true, {}, "", host).key == LastKey(SplitLines(s).lines[1..], "")
  {
    hide Parse, LineFields, RequestFields, LineKey, FieldsOf, LastKey, Content, Explains, SplitLines;
    ParsesAll(s, host);
    var t := SplitLines(s);
    if t.lines != [] && |t.lines[0]| < BUFFER_SIZE {
      AcceptsLines(t.lines[0], Text(t.lines[1..], t.ended), Parse(s, true, {}, "", host), host);
      assert [t.lines[0]] + t.lines[1..] == t.lines;
    }
  }

  lemma ParseRequest(s: string, host: string)
    requires WellFormed(s, true)
    ensures var e := IndexOf(s, '\n');
            if e == |s| || e >= BUFFER_SIZE then Parse(s, true, {}, "", host) == Dropped
            else if Content(s[..e]) == [] then Parse(s, true, {}, "", host) == Refused({})
            else WellFormed(s[e + 1..], false)
                 && Parse(s, true, {}, "", host)
                 == Parse(s[e + 1..], false, RequestFields(Content(s[..e])), "", host)
  {
    hide RequestFields, HeaderFields, NextKey, KeyOf, ValueOf, Content;
    var e := IndexOf(s, '\n');
    if e < |s| && e < BUFFER_SIZE && Content(s[..e]) != [] {
      assert {} + RequestFields(Content(s[..e])) == RequestFields(Content(s[..e]));
    }
  }

  lemma AcceptsLines(line: string, t: Text, r: Outcome, host: string)
    requires |line| < BUFFER_SIZE
    requires Explains(r, t, RequestFields(Content(line)), "", host)
    ensures r.Accepted? <==> t.ended && Acceptable([line] + t.lines, host)
    ensures r.Accepted? ==> r.key == LastKey(([line] + t.lines)[1..], "")
  {
    hide RequestFields, Content, LineFields, FieldsOf, LastKey, IsHeader;
    var request, lines := RequestFields(Content(line)), [line] + t.lines;
    assert lines[0] == line && lines[1..] == t.lines;
    NoneBad(t.lines);
    assert Readable(lines) <==> Readable(t.lines) by {
      assert forall h :: h in lines <==> h == line || h in t.lines;
    }
    RequestFieldsAre(Content(line));
    forall f: Field
      ensures f in FieldsOf(t.lines, host) <==> exists h :: h in t.lines && f in LineFields(h, host)
      ensures f in FieldsOf(t.lines, host) ==> f !in {Get, GetPath}
    {
      FieldsOfIs(t.lines, host, f);
    }
    AllFieldsPresent(request, t.lines, host);
  }

  lemma NoneBad(lines: seq<string>)
    ensures FirstBad(lines) == |lines| <==> Readable(lines) && AllHeaders(lines)
  {
    var i := FirstBad(lines);
    if i < |lines| {
      assert lines[i] in lines && Bad(lines[i]);
    }
  }

  lemma RequestFieldsAre(l: string)
    ensures RequestFields(l) <= {Get, GetPath}
  {
  }

  lemma AllFieldsPresent(request: set<Field>, headers: seq<string>, host: string)
    requires request <= {Get, GetPath}
    requires forall f: Field :: f in FieldsOf(headers, host) <==> exists h :: h in headers && f in LineFields(h, host)
    requires forall f: Field :: f in FieldsOf(headers, host) ==> f !in {Get, GetPath}
    ensures request + FieldsOf(headers, host) == ALL_FIELDS
       <==> request == {Get, GetPath} && AllPresent(headers, host)
  {
    hide LineFields;
    var all := request + FieldsOf(headers, host);
    if all == ALL_FIELDS {
      assert Get in all && GetPath in all;
      assert forall f: Field | f in ALL_FIELDS - {Get, GetPath} :: f in all;
    }
    if request == {Get, GetPath} && AllPresent(headers, host) {
      assert forall f: Field | f in ALL_FIELDS - {Get, GetPath} :: f in FieldsOf(headers, host);
      forall f: Field ensures f in ALL_FIELDS {
        match f case Get => case _ =>
      }
      assert all == ALL_FIELDS;
    }
  }

  // ---- Acceptance on the wire ----

  /** The line l as it is sent, without the LF: with a CR, or without if l does not end in one. */
  predicate IsLine(line: string, l: string) {
    line == l + "\r" || (line == l && (l == "" || l[|l| - 1] != '\r'))
  }

  lemma ContentIs(line: string, l: string)
    ensures IsLine(line, l) <==> Content(line) == l
  {
    if IsLine(line, l) && line == l + "\r" {
      assert line[..|line| - 1] == l;
    }
    if Content(line) == l && line != l {
      assert line == l + "\r";
    }
  }

  /** The line has this name and this value, with any one character after the colon. */
  ghost predicate Says(line: string, name: string, value: string) {
    exists c: char :: IsLine(line, name + ":" + [c] + value)
  }

  lemma SaysIs(line: string, name: string, value: string)
    requires ':' !in name && value != ""
    ensures Says(line, name, value)
       <==> IsHeader(line) && KeyOf(Content(line)) == name && ValueOf(Content(line)) == value
  {
    var l := Content(line);
    if Says(line, name, value) {
      var c: char :| IsLine(line, name + ":" + [c] + value);
      ContentIs(line, name + ":" + [c] + value);
      ColonOf(name, c, value);
    }
    if HasColon(l) && KeyOf(l) == name && ValueOf(l) == value {
      var i := IndexOf(l, ':');
      assert l == l[..i] + ":" + [l[i + 1]] + l[i + 2..];
      ContentIs(line, name + ":" + [l[i + 1]] + value);
    }
  }

  lemma ColonOf(name: string, c: char, value: string)
    requires ':' !in name
    ensures var l := name + ":" + [c] + value;
            HasColon(l) && KeyOf(l) == name && HasRoom(l) && ValueOf(l) == value
  {
    var l := name + ":" + [c] + value;
    assert forall j :: 0 <= j < |name| ==> l[j] == name[j];
    IndexOfIs(l, ':', |name|);
  }

  /** Which lines earn which bits. */
  lemma BitsSay(line: string, host: string)
    requires host != ""
    ensures Upgrade in LineFields(line, host) <==> Says(line, "Upgrade", "websocket")
    ensures Connection in LineFields(line, host) <==> Says(line, "Connection", "Upgrade")
    ensures Version in LineFields(line, host) <==> Says(line, "Sec-WebSocket-Version", "13")
    ensures Host in LineFields(line, host) <==> Says(line, "Host", host)
    ensures SecKey in LineFields(line, host) <==> SaysKey(line)
    ensures Version in LineFields(line, host) ==> SecVersion in LineFields(line, host)
  {
    hide Says, IsHeader, KeyOf, ValueOf, Content, SaysKey;
    SaysIs(line, "Upgrade", "websocket");
    SaysIs(line, "Connection", "Upgrade");
    SaysIs(line, "Sec-WebSocket-Version", "13");
    SaysIs(line, "Host", host);
    SaysKeyIs(line);
  }

  /** A key of 24 characters. */
  ghost predicate SaysKey(line: string) {
    exists v: string :: |v| == 24 && Says(line, "Sec-WebSocket-Key", v)
  }

  lemma SaysKeyIs(line: string)
    ensures SaysKey(line) <==> IsKeyLine(line)
  {
    hide Says, IsHeader, KeyOf, ValueOf, Content;
    if SaysKey(line) {
      var v: string :| |v| == 24 && Says(line, "Sec-WebSocket-Key", v);
      SaysIs(line, "Sec-WebSocket-Key", v);
    }
    if IsKeyLine(line) {
      SaysIs(line, "Sec-WebSocket-Key", ValueOf(Content(line)));
    }
  }

  function Spaces(n: nat): (r: string)
    ensures |r| == n
  {
    if n == 0 then "" else " " + Spaces(n - 1)
  }

  /** The first words of l, with spaces between them and perhaps before them. */
  ghost predicate Begins(l: string, words: seq<string>)
    decreases |words|
  {
    words == []
    || exists n: nat, rest: string ::
         l == Spaces(n) + words[0] + rest && (rest == "" || rest[0] == ' ') && Begins(rest, words[1..])
  }

  predicate IsWord(w: string) {
    w != "" && ' ' !in w
  }

  lemma {:induction false} SkipsSpaces(n: nat, t: string)
    requires t != "" && t[0] != ' '
    ensures SkipSpaces(Spaces(n) + t) == t
  {
    if n == 0 {
      assert Spaces(0) + t == t;
    } else {
      assert (Spaces(n) + t)[1..] == Spaces(n - 1) + t;
      SkipsSpaces(n - 1, t);
    }
  }

  lemma {:induction false} SpacesSkipped(l: string)
    ensures l == Spaces(|l| - |SkipSpaces(l)|) + SkipSpaces(l)
  {
    if l != "" && l[0] == ' ' {
      SpacesSkipped(l[1..]);
    }
  }

  lemma FirstToken(n: nat, w: string, rest: string)
    requires IsWord(w) && (rest == "" || rest[0] == ' ')
    ensures Tokens(Spaces(n) + w + rest) == [w] + Tokens(rest)
  {
    var t := w + rest;
    assert Spaces(n) + w + rest == Spaces(n) + t;
    SkipsSpaces(n, t);
    assert forall j :: 0 <= j < |w| ==> t[j] == w[j];
    IndexOfIs(t, ' ', |w|);
    assert t[..|w|] == w && t[|w|..] == rest;
  }

  /** strtok finds just these words. */
  lemma {:induction false} BeginsIsTokens(l: string, words: seq<string>)
    requires forall w :: w in words ==> IsWord(w)
    ensures Begins(l, words) <==> |words| <= |Tokens(l)| && Tokens(l)[..|words|] == words
    decreases |words|
  {
    hide Tokens, Begins, IsWord;
    if words == [] {
      NothingBegins(l);
    } else {
      var w, more := words[0], words[1..];
      if Begins(l, words) {
        var n, rest := FirstWord(l, words);
        FirstToken(n, w, rest);
        BeginsIsTokens(rest, more);
        assert ([w] + Tokens(rest))[..|words|] == [w] + Tokens(rest)[..|more|];
      }
      if |words| <= |Tokens(l)| && Tokens(l)[..|words|] == words {
        var n, rest := AfterToken(l);
        var t := Tokens(rest);
        assert ([Tokens(l)[0]] + t)[..|words|][1..] == t[..|more|];
        assert Tokens(l)[0] == Tokens(l)[..|words|][0];
        BeginsIsTokens(rest, more);
        WordBegins(l, words, n, rest);
      }
    }
  }

  lemma NothingBegins(l: string)
    ensures Begins(l, [])
  {
  }

  lemma FirstWord(l: string, words: seq<string>) returns (n: nat, rest: string)
    requires words != [] && Begins(l, words)
    ensures l == Spaces(n) + words[0] + rest && (rest == "" || rest[0] == ' ') && Begins(rest, words[1..])
  {
    n, rest :| l == Spaces(n) + words[0] + rest && (rest == "" || rest[0] == ' ') && Begins(rest, words[1..]);
  }

  lemma WordBegins(l: string, words: seq<string>, n: nat, rest: string)
    requires words != [] && l == Spaces(n) + words[0] + rest && (rest == "" || rest[0] == ' ')
    requires Begins(rest, words[1..])
    ensures Begins(l, words)
  {
  }

  /** What strtok leaves behind the first word. */
  lemma AfterToken(l: string) returns (n: nat, rest: string)
    requires Tokens(l) != []
    ensures l == Spaces(n) + Tokens(l)[0] + rest && (rest == "" || rest[0] == ' ')
    ensures Tokens(l) == [Tokens(l)[0]] + Tokens(rest)
  {
    hide Spaces;
    var t := SkipSpaces(l);
    var e := IndexOf(t, ' ');
    SpacesSkipped(l);
    n, rest := |l| - |t|, t[e..];
    TokensOf(l);
    SplitAt(Spaces(n), t, e);
  }

  lemma TokensOf(l: string)
    ensures var t := SkipSpaces(l);
            Tokens(l) == if t == [] then [] else [t[..IndexOf(t, ' ')]] + Tokens(t[IndexOf(t, ' ')..])
  {
  }

  lemma SplitAt(a: string, t: string, e: nat)
    requires e <= |t|
    ensures a + t == a + t[..e] + t[e..]
  {
  }

  /** The request line asks for / by GET and HTTP/1.1. */
  ghost predicate SaysGet(line: string) {
    Begins(Content(line), ["GET", "/", "HTTP/1.1"])
  }

  lemma SaysGetIs(line: string)
    ensures SaysGet(line) <==> GoodRequest(line)
  {
    hide Tokens, Begins, Content;
    var l, words := Content(line), ["GET", "/", "HTTP/1.1"];
    BeginsIsTokens(l, words);
    var t := Tokens(l);
    if 3 <= |t| {
      assert t[..3] == [t[0], t[1], t[2]];
      assert t[..3] == words <==> t[0] == "GET" && t[1] == "/" && t[2] == "HTTP/1.1";
    }
  }

  /** Which request lines earn which bits. */
  lemma RequestBitsSay(line: string)
    ensures GetPath in RequestFields(Content(line)) <==> Begins(Content(line), ["GET", "/"])
    ensures Get in RequestFields(Content(line))
       <==> exists path :: IsWord(path) && Begins(Content(line), ["GET", path, "HTTP/1.1"])
  {
    hide Tokens, Begins, Content;
    var l := Content(line);
    var t := Tokens(l);
    BeginsIsTokens(l, ["GET", "/"]);
    if 2 <= |t| {
      assert t[..2] == [t[0], t[1]];
      assert t[..2] == ["GET", "/"] <==> t[0] == "GET" && t[1] == "/";
    }
    forall path | IsWord(path)
      ensures Begins(l, ["GET", path, "HTTP/1.1"]) <==>
              3 <= |t| && t[0] == "GET" && t[1] == path && t[2] == "HTTP/1.1"
    {
      BeginsIsTokens(l, ["GET", path, "HTTP/1.1"]);
      ThreeTokens(t, ["GET", path, "HTTP/1.1"]);
    }
    if 3 <= |t| {
      TokensAreWords(l);
      assert IsWord(t[1]);
    }
  }

  lemma ThreeTokens(t: seq<string>, words: seq<string>)
    requires |words| == 3
    ensures 3 <= |t| && t[..3] == words <==> 3 <= |t| && t[0] == words[0] && t[1] == words[1] && t[2] == words[2]
  {
    if 3 <= |t| {
      assert t[..3] == [t[0], t[1], t[2]];
      assert words == [words[0], words[1], words[2]];
    }
  }

  lemma {:induction false} TokensAreWords(l: string)
    ensures forall w :: w in Tokens(l) ==> IsWord(w)
    decreases |l|
  {
    var t := SkipSpaces(l);
    TokensOf(l);
    if t != [] {
      TokensAreWords(t[IndexOf(t, ' ')..]);
      hide SkipSpaces;
    }
  }

  /** The header has every line a handshake needs (section 4.2.1 of RFC 6455). */
  ghost predicate SaysAll(headers: seq<string>, host: string) {
    && (exists h :: h in headers && Says(h, "Upgrade", "websocket"))
    && (exists h :: h in headers && Says(h, "Connection", "Upgrade"))
    && (exists h :: h in headers && Says(h, "Sec-WebSocket-Version", "13"))
    && (exists h :: h in headers && Says(h, "Host", host))
    && (exists h :: h in headers && SaysKey(h))
  }

  lemma AllPresentSays(headers: seq<string>, host: string)
    requires host != ""
    ensures AllPresent(headers, host) <==> SaysAll(headers, host)
  {
    hide Says, SaysKey, LineFields;
    forall h
      ensures Upgrade in LineFields(h, host) <==> Says(h, "Upgrade", "websocket")
      ensures Connection in LineFields(h, host) <==> Says(h, "Connection", "Upgrade")
      ensures Version in LineFields(h, host) <==> Says(h, "Sec-WebSocket-Version", "13")
      ensures Host in LineFields(h, host) <==> Says(h, "Host", host)
      ensures SecKey in LineFields(h, host) <==> SaysKey(h)
      ensures Version in LineFields(h, host) ==> SecVersion in LineFields(h, host)
    {
      BitsSay(h, host);
    }
    if AllPresent(headers, host) {
      Present(headers, host, Upgrade);
      Present(headers, host, Connection);
      Present(headers, host, Version);
      Present(headers, host, Host);
      Present(headers, host, SecKey);
    }
  }

  lemma IsField(f: Field)
    ensures f in ALL_FIELDS
  {
    match f case Get => case _ =>
  }

  lemma Present(headers: seq<string>, host: string, f: Field)
    requires AllPresent(headers, host) && f !in {Get, GetPath}
    ensures exists h :: h in headers && f in LineFields(h, host)
  {
    IsField(f);
    assert f in ALL_FIELDS - {Get, GetPath};
  }

  /** A handshake is accepted if and only if its header is complete, no line fills the buffer,
      the first line reads GET / HTTP/1.1, the others have a colon, and there are lines that say
      Upgrade: websocket, Connection: Upgrade, Sec-WebSocket-Version: 13, Host: and the host, and
      Sec-WebSocket-Key: with 24 characters; the last such key is returned. */
  lemma AcceptsWhatIsSaid(s: string, host: string)
    requires WellFormed(s, true) && host != ""
    ensures var r, t := Parse(s, true, {}, "", host), SplitLines(s);
            r.Accepted? <==>
              && t.ended && t.lines != [] && SaysGet(t.lines[0]) && SaysAll(t.lines[1..], host)
              && (forall h :: h in t.lines ==> |h| < 4096) && (forall h :: h in t.lines[1..] ==> ':' in h)
    ensures var r, t := Parse(s, true, {}, "", host), SplitLines(s);
            r.Accepted? ==> exists i: nat :: IsLastKey(t.lines[1..], i, r.key)
  {
    hide Parse, WellFormed, SplitLines, AllPresent, SaysAll, SaysGet, GoodRequest, IsHeader, LastKey;
    Acceptance(s, host);
    var r, t := Parse(s, true, {}, "", host), SplitLines(s);
    if t.lines != [] {
      SaysGetIs(t.lines[0]);
      AllPresentSays(t.lines[1..], host);
      forall h | h in t.lines[1..] ensures IsHeader(h) <==> ':' in h {
        HasColonIs(h);
      }
      if r.Accepted? {
        LastKeySaid(t.lines[1..], host);
      }
    }
  }

  lemma HasColonIs(h: string)
    ensures IsHeader(h) <==> ':' in h
  {
    ContentColon(h);
    assert HasColon(h) <==> ':' in h;
  }

  /** The key of line i, which no other key line follows. */
  ghost predicate IsLastKey(headers: seq<string>, i: nat, key: string) {
    && i < |headers| && |key| == 24 && Says(headers[i], "Sec-WebSocket-Key", key)
    && forall j :: i < j < |headers| ==> !SaysKey(headers[j])
  }

  lemma LastKeySaid(headers: seq<string>, host: string)
    requires SaysAll(headers, host)
    ensures exists i: nat :: IsLastKey(headers, i, LastKey(headers, ""))
  {
    hide Says, SaysKey, IsKeyLine, LastKey, KeyOf, ValueOf, Content, IsHeader;
    forall h ensures SaysKey(h) <==> IsKeyLine(h) {
      SaysKeyIs(h);
    }
    var h :| h in headers && SaysKey(h);
    var k: nat :| k < |headers| && headers[k] == h;
    var i := LastOf(headers, k);
    LastKeyIsLast(headers, "", i);
    KeyLineSays(headers[i]);
    assert IsLastKey(headers, i, LastKey(headers, ""));
  }

  lemma KeyLineSays(line: string)
    requires IsKeyLine(line)
    ensures Says(line, "Sec-WebSocket-Key", ValueOf(Content(line)))
  {
    hide Says, ValueOf, KeyOf, IsHeader;
    SaysIs(line, "Sec-WebSocket-Key", ValueOf(Content(line)));
  }

  /** The last key line, of which k is one. */
  lemma LastOf(headers: seq<string>, k: nat) returns (i: nat)
    requires k < |headers| && IsKeyLine(headers[k])
    ensures k <= i < |headers| && IsKeyLine(headers[i])
    ensures forall j :: i < j < |headers| ==> !IsKeyLine(headers[j])
    decreases |headers| - k
  {
    hide IsKeyLine;
    if j :| k < j < |headers| && IsKeyLine(headers[j]) {
      i := LastOf(headers, j);
    } else {
      i := k;
    }
  }

  /** Lines as they are sent. */
  function JoinLines(lines: seq<string>): string {
    if lines == [] then "" else lines[0] + "\n" + JoinLines(lines[1..])
  }

  /** Splitting finds the lines that were sent. */
  lemma {:induction false} SplitsWhatWasSent(lines: seq<string>, blank: string, rest: string)
    requires forall l :: l in lines ==> '\n' !in l && !IsLine(l, "")
    requires IsLine(blank, "")
    ensures SplitLines(JoinLines(lines) + (blank + "\n" + rest)) == Text(lines, true)
  {
    hide SplitLines, Content, IsLine, JoinLines;
    var tail := blank + "\n" + rest;
    ContentIs(blank, "");
    BlankHasNoEnd(blank);
    SplitsOne(blank, rest);
    if lines == [] {
      NothingJoined(tail);
    } else {
      var l, more := lines[0], JoinLines(lines[1..]) + tail;
      assert l in lines;
      ContentIs(l, "");
      JoinFirst(lines, tail);
      SplitsOne(l, more);
      SplitsWhatWasSent(lines[1..], blank, rest);
    }
  }

  lemma BlankHasNoEnd(blank: string)
    requires IsLine(blank, "")
    ensures '\n' !in blank
  {
  }

  lemma NothingJoined(tail: string)
    ensures JoinLines([]) + tail == tail
  {
  }

  lemma JoinFirst(lines: seq<string>, tail: string)
    requires lines != []
    ensures JoinLines(lines) + tail == lines[0] + "\n" + (JoinLines(lines[1..]) + tail)
  {
  }

  lemma SplitsOne(l: string, more: string)
    requires '\n' !in l
    ensures SplitLines(l + "\n" + more)
         == if Content(l) == "" then Text([], true)
            else Text([l] + SplitLines(more).lines, SplitLines(more).ended)
  {
    hide Content;
    var s := l + "\n" + more;
    assert forall j :: 0 <= j < |l| ==> s[j] == l[j];
    IndexOfIs(s, '\n', |l|);
    assert s[..|l|] == l && s[|l| + 1..] == more;
  }

  /** Acceptance does not depend on the order of the header lines. */
  lemma OrderDoesNotMatter(s: string, permuted: string, host: string)
    requires WellFormed(s, true) && WellFormed(permuted, true)
    requires SplitLines(s).ended == SplitLines(permuted).ended
    requires SplitLines(s).lines != [] && SplitLines(permuted).lines != []
    requires SplitLines(s).lines[0] == SplitLines(permuted).lines[0]
    requires multiset(SplitLines(s).lines[1..]) == multiset(SplitLines(permuted).lines[1..])
    ensures Parse(s, true, {}, "", host).Accepted? <==> Parse(permuted, true, {}, "", host).Accepted?
  {
    hide Parse, WellFormed, SplitLines, Acceptable;
    Acceptance(s, host);
    Acceptance(permuted, host);
    AcceptableInAnyOrder(SplitLines(s).lines, SplitLines(permuted).lines, host);
  }

  lemma AcceptableInAnyOrder(lines: seq<string>, permuted: seq<string>, host: string)
    requires lines != [] && permuted != [] && lines[0] == permuted[0]
    requires multiset(lines[1..]) == multiset(permuted[1..])
    ensures Acceptable(lines, host) <==> Acceptable(permuted, host)
  {
    hide LineFields;
    SameElements(lines[1..], permuted[1..]);
    assert forall h :: h in lines <==> h == lines[0] || h in lines[1..];
    assert forall h :: h in permuted <==> h == permuted[0] || h in permuted[1..];
  }

  lemma SameElements(a: seq<string>, b: seq<string>)
    requires multiset(a) == multiset(b)
    ensures forall h :: h in a <==> h in b
  {
    assert forall h :: h in a <==> h in multiset(a);
    assert forall h :: h in b <==> h in multiset(b);
  }

  /** The key is the value of a valid key line that no valid key line follows. */
  lemma {:induction false} LastKeyIsLast(headers: seq<string>, key: string, i: nat)
    requires i < |headers| && IsKeyLine(headers[i])
    requires forall j :: i < j < |headers| ==> !IsKeyLine(headers[j])
    ensures LastKey(headers, key) == ValueOf(Content(headers[i])) && |LastKey(headers, key)| == SECKEY_LEN
  {
    hide KeyOf, ValueOf, Content, HasColon, IsHeader;
    if i == 0 {
      NoKeyLine(headers[1..], LineKey(headers[0], key));
    } else {
      LastKeyIsLast(headers[1..], LineKey(headers[0], key), i - 1);
    }
  }

  predicate IsKeyLine(line: string) {
    IsHeader(line) && KeyOf(Content(line)) == "Sec-WebSocket-Key" && |ValueOf(Content(line))| == SECKEY_LEN
  }

  lemma {:induction false} NoKeyLine(headers: seq<string>, key: string)
    requires forall j :: 0 <= j < |headers| ==> !IsKeyLine(headers[j])
    ensures LastKey(headers, key) == key
  {
    if headers != [] {
      NoKeyLine(headers[1..], key);
    }
  }

  // ---- The code ----

  /** The C string at an offset of the buffer. */
  function CString(b: seq<char>, at: nat): string
    requires at <= |b|
  {
    b[at..at + IndexOf(b[at..], NUL)]
  }

  lemma CStringIs(b: seq<char>, at: nat, t: string)
    requires at + |t| < |b| && b[at..at + |t|] == t && NUL !in t && b[at + |t|] == NUL
    ensures CString(b, at) == t
  {
    forall j | 0 <= j < |t| ensures b[at..][j] != NUL {
      assert b[at..][j] == b[at..at + |t|][j] == t[j];
    }
    IndexOfIs(b[at..], NUL, |t|);
  }

  /** Why a key line must not end in its colon: behind the newline at `at`, how much has been read
      decides.  If 23 characters follow and then a NUL, they are taken for a key; if nothing
      follows, there is none. */
  lemma EmptyKeyDepends(b: seq<char>, at: nat, host: string, key: string)
    requires at < |b| && b[at] == '\n'
    ensures var v, read := CString(b, at), IndexOf(b[at..], NUL);
            && (HeaderFields("Sec-WebSocket-Key", v, host) == {SecKey} <==> read == SECKEY_LEN)
            && NextKey("Sec-WebSocket-Key", v, key) == if read == SECKEY_LEN then b[at..at + read] else key
    ensures IndexOf(b[at..], NUL) == SECKEY_LEN <==> at + SECKEY_LEN <= |b| && NUL !in b[at..at + SECKEY_LEN]
                                                     && (at + SECKEY_LEN < |b| ==> b[at + SECKEY_LEN] == NUL)
  {
    var rest := b[at..];
    if at + SECKEY_LEN <= |b| && NUL !in b[at..at + SECKEY_LEN]
       && (at + SECKEY_LEN < |b| ==> b[at + SECKEY_LEN] == NUL) {
      forall j | 0 <= j < SECKEY_LEN ensures rest[j] != NUL {
        assert rest[j] == b[at..at + SECKEY_LEN][j];
      }
      IndexOfIs(rest, NUL, SECKEY_LEN);
    }
    if IndexOf(rest, NUL) == SECKEY_LEN {
      assert forall j :: 0 <= j < SECKEY_LEN ==> b[at..at + SECKEY_LEN][j] == rest[j];
    }
  }

  /** The part of a line that has been scanned, as it stands in the buffer: the first colon of
      a header line has become a NUL. */
  function Marked(raw: string, first: bool): (m: string)
    ensures |m| == |raw|
  {
    if !first && HasColon(raw) then raw[IndexOf(raw, ':') := NUL] else raw
  }

  /** Where the value of the scanned part starts, relative to the line; None before a colon. */
  function ValueAt(raw: string, first: bool): Option<nat> {
    if !first && HasColon(raw) then Some(IndexOf(raw, ':') + 2) else None
  }

  lemma MarkedNext(raw: string, c: char, first: bool)
    ensures Marked(raw + [c], first)
         == Marked(raw, first) + [if !first && ValueAt(raw, first).None? && c == ':' then NUL else c]
    ensures ValueAt(raw + [c], first)
         == if !first && ValueAt(raw, first).None? && c == ':' then Some(|raw| + 2) else ValueAt(raw, first)
  {
    if HasColon(raw) {
      IndexOfIs(raw + [c], ':', IndexOf(raw, ':'));
    } else {
      IndexOfIs(raw + [c], ':', if c == ':' then |raw| else |raw| + 1);
    }
  }

  /** Sends an error on a new client socket, then closes it. */
  method SendError(s: Stream<char>, ok: set<Field>)
    modifies s`output, s`open
    ensures !s.open
    ensures old(s.open) && s.reliable ==> s.output == old(s.output) + ErrorAnswer(ok)
  {
    var answer := ErrorAnswer(ok);
    var buffer := new char[|answer|](i requires 0 <= i < |answer| => answer[i]);
    var n := BlockWrite(s, buffer, 0, |answer|);
    assert buffer[0..|answer|] == answer;
    s.Close();
  }

  /** The position of the parser inside its buffer: line start, scan position, unread bytes.  Cell
      0 of the buffer stands for the byte of memory before it, at which the code looks when a line
      that starts the buffer consists of a bare LF. */
  datatype Cursor = Cursor(key: nat, p: nat, n: nat)

  const START: nat := 1
  const CELLS: nat := START + BUFFER_SIZE

  /** No line starts behind a CR. */
  predicate LineStart(b: seq<char>, key: nat) {
    START <= key <= |b| && b[key - 1] != '\r'
  }

  /** The buffer holds the scanned part of a line, then bytes yet to scan. */
  ghost predicate Scanned(b: seq<char>, c: Cursor, raw: string, first: bool, v: Option<nat>) {
    && c.key <= c.p && c.p + c.n <= |b| && LineStart(b, c.key)
    && b[c.key..c.p] == Marked(raw, first) && '\n' !in raw
    && v == (if ValueAt(raw, first).None? then None else Some(c.key + ValueAt(raw, first).value))
  }

  lemma ScannedStart(b: seq<char>, c: Cursor, first: bool)
    requires c.key == c.p && c.p + c.n <= |b| && LineStart(b, c.key)
    ensures Scanned(b, c, "", first, None)
  {
  }

  /** Moves the line to the start of the buffer and reads again. */
  method Refill(s: Stream<char>, buffer: array<char>, c: Cursor, value: Option<nat>, ghost raw: string,
                ghost first: bool) returns (ok: bool, c': Cursor, value': Option<nat>)
    requires buffer.Length == CELLS && c.n == 0 && Scanned(buffer[..], c, raw, first, value) && buffer[0] != '\r'
    modifies buffer, s`input, s`open
    ensures buffer[0] != '\r'
    ensures !ok ==> !s.open
    ensures ok ==> START <= c'.key <= c'.p && c'.p + c'.n <= CELLS && |raw| == c'.p - c'.key
    ensures ok ==> s.open == old(s.open) && c'.n > 0 && Scanned(buffer[..], c', raw, first, value')
                   && buffer[c'.p..c'.p + c'.n] + s.input == old(s.input)
    ensures old(s.open) && s.reliable ==> (!ok <==> |raw| == BUFFER_SIZE || old(s.input) == [])
  {
    var len := c.p - c.key;
    MoveDown(buffer, c.key, len);
    assert buffer[START..START + len] == Marked(raw, first);
    value' := if value.Some? then Some(value.value - (c.key - START)) else None;
    var n := s.Read(buffer, START + len, BUFFER_SIZE - len);
    c' := Cursor(START, START + len, 0);
    if n <= 0 {
      s.Close();
      return false, c', value';
    }
    c' := Cursor(START, START + len, n);
    assert buffer[START..START + len] == Marked(raw, first);
    assert buffer[..][START..START + len] == buffer[START..START + len];
    return true, c', value';
  }

  /** memmove to the start of the buffer. */
  method MoveDown(buffer: array<char>, from: nat, len: nat)
    requires START <= from && from + len <= buffer.Length
    modifies buffer
    ensures buffer[START..START + len] == old(buffer[from..from + len])
    ensures buffer[0] == old(buffer[0])
  {
    for i := 0 to len
      invariant buffer[START..START + i] == old(buffer[from..from + i])
      invariant forall j :: START + i <= j < buffer.Length ==> buffer[j] == old(buffer[j])
      invariant buffer[0] == old(buffer[0])
    {
      buffer[START + i] := buffer[from + i];
    }
  }

  /** The strings of a complete line, as the code will read them. */
  predicate LineReady(b: seq<char>, key: nat, value: Option<nat>, l: string, first: bool) {
    var header := !first && HasColon(l);
    && key <= |b| && (value.Some? <==> header)
    && CString(b, key) == (if header then KeyOf(l) else l)
    && (header ==> value.value <= |b| && Reads(l, CString(b, value.value)))
  }

  lemma ContentColon(raw: string)
    ensures HasColon(raw) <==> HasColon(Content(raw))
    ensures HasColon(raw) ==> IndexOf(raw, ':') == IndexOf(Content(raw), ':')
  {
    var l := Content(raw);
    if HasColon(raw) {
      IndexOfIs(l, ':', IndexOf(raw, ':'));
    } else {
      IndexOfIs(l, ':', |l|);
    }
  }

  lemma LineIsReady(b: seq<char>, key: nat, value: Option<nat>, raw: string, first: bool)
    requires GoodLine(raw, first) && key + |Content(raw)| < |b|
    requires b[key..key + |Content(raw)|] == Marked(raw, first)[..|Content(raw)|] && b[key + |Content(raw)|] == NUL
    requires Content(raw) != raw ==> key + |raw| < |b| && b[key + |raw|] == '\n'
    requires value == if ValueAt(raw, first).None? then None else Some(key + ValueAt(raw, first).value)
    ensures LineReady(b, key, value, Content(raw), first)
  {
    hide CString, Content, Reads, KeyOf, IndexOf, GoodLine;
    var l := Content(raw);
    GoodLineHasNoNul(raw, first);
    ContentColon(raw);
    ContentPrefix(raw);
    if !first && HasColon(raw) {
      HeaderIsReady(b, key, raw);
    } else {
      assert b[key..key + |l|] == l;
      CStringIs(b, key, l);
    }
  }

  lemma GoodLineHasNoNul(raw: string, first: bool)
    requires GoodLine(raw, first)
    ensures NUL !in raw && NUL !in Content(raw)
  {
  }

  lemma ContentPrefix(raw: string)
    ensures Content(raw) <= raw
  {
  }

  lemma SubSlice(b: seq<char>, at: nat, len: nat, i: nat, j: nat)
    requires at + len <= |b| && i <= j <= len
    ensures b[at..at + len][i..j] == b[at + i..at + j]
  {
    var part, whole := b[at..at + len][i..j], b[at + i..at + j];
    assert forall k :: 0 <= k < j - i ==> part[k] == whole[k];
  }

  lemma MarkedParts(raw: string, l: string, i: nat)
    requires l <= raw && i < |l|
    ensures var m := raw[i := NUL][..|l|];
            m[0..i] == l[..i] && m[i..i + 1] == [NUL] && (i + 2 <= |l| ==> m[i + 2..|l|] == l[i + 2..])
  {
  }

  lemma CStringStarts(b: seq<char>, at: nat)
    requires at < |b| && b[at] != NUL
    ensures CString(b, at) != [] && CString(b, at)[0] == b[at]
  {
    assert b[at..][0] == b[at];
  }

  lemma HeaderIsReady(b: seq<char>, key: nat, raw: string)
    requires GoodLine(raw, false) && HasColon(raw) && Content(raw) <= raw
    requires HasColon(Content(raw)) && IndexOf(raw, ':') == IndexOf(Content(raw), ':')
    requires key + |Content(raw)| < |b|
    requires b[key..key + |Content(raw)|] == Marked(raw, false)[..|Content(raw)|] && b[key + |Content(raw)|] == NUL
    requires Content(raw) != raw ==> key + |raw| < |b| && b[key + |raw|] == '\n'
    ensures CString(b, key) == KeyOf(Content(raw))
    ensures Reads(Content(raw), CString(b, key + IndexOf(raw, ':') + 2))
  {
    hide CString, IndexOf, GoodLine, Reads, Content;
    var l, i := Content(raw), IndexOf(raw, ':');
    GoodLineHasNoNul(raw, false);
    HeaderParts(b, key, raw, l, i);
    if HasRoom(l) {
      ReadsWithRoom(l, CString(b, key + i + 2));
    } else {
      HeaderWithoutRoom(b, key, raw, i);
    }
  }

  /** A key, a NUL for the colon, and, if there is room, a value. */
  lemma HeaderParts(b: seq<char>, key: nat, raw: string, l: string, i: nat)
    requires l <= raw && i < |l| && key + |l| < |b| && NUL !in l
    requires b[key..key + |l|] == raw[i := NUL][..|l|] && b[key + |l|] == NUL
    ensures CString(b, key) == l[..i]
    ensures i + 2 <= |l| ==> CString(b, key + i + 2) == l[i + 2..]
  {
    hide CString;
    var m := raw[i := NUL][..|l|];
    MarkedParts(raw, l, i);
    SubSlice(b, key, |l|, 0, i);
    SubSlice(b, key, |l|, i, i + 1);
    assert b[key + i] == m[i..i + 1][0] == NUL;
    CStringIs(b, key, l[..i]);
    if i + 2 <= |l| {
      SubSlice(b, key, |l|, i + 2, |l|);
      CStringIs(b, key + i + 2, l[i + 2..]);
    }
  }

  lemma ReadsWithRoom(l: string, value: string)
    requires HasColon(l) && HasRoom(l) && value == l[IndexOf(l, ':') + 2..]
    ensures Reads(l, value)
  {
    hide IndexOf;
  }

  lemma HeaderWithoutRoom(b: seq<char>, key: nat, raw: string, i: nat)
    requires GoodLine(raw, false) && HasColon(Content(raw)) && !HasRoom(Content(raw))
    requires i == IndexOf(Content(raw), ':') && key + |Content(raw)| < |b|
    requires Content(raw) != raw ==> key + |raw| < |b| && b[key + |raw|] == '\n'
    ensures Reads(Content(raw), CString(b, key + i + 2))
  {
    hide CString, IndexOf, KeyOf;
    if Content(raw) != raw {
      assert |raw| == i + 2;
      CStringStarts(b, key + |raw|);
    }
  }

  /** Where the line that the newline at c.p ends has its final NUL: on a CR before it, if any. */
  function EndAt(b: seq<char>, c: Cursor): nat
    requires 0 < c.p < |b|
  {
    if b[c.p - 1] == '\r' then c.p - 1 else c.p
  }

  lemma EndIsContent(b: seq<char>, c: Cursor, raw: string, first: bool, v: Option<nat>)
    requires c.n > 0 && Scanned(b, c, raw, first, v) && GoodLine(raw, first)
    ensures 0 < c.p && c.p + c.n <= |b| && EndAt(b, c) == c.key + |Content(raw)|
  {
    hide ValueAt;
    if raw != "" {
      assert b[c.p - 1] == b[c.key..c.p][|raw| - 1];
      assert b[c.p - 1] == '\r' <==> raw[|raw| - 1] == '\r';
    }
  }

  lemma EndMarksLine(b: seq<char>, key: nat, p: nat, at: nat)
    requires key <= at <= p <= |b| && at < |b|
    ensures b[at := NUL][key..at] == b[key..p][..at - key]
  {
  }

  lemma EndedIsReady(b: seq<char>, c: Cursor, raw: string, first: bool, v: Option<nat>)
    requires c.n > 0 && Scanned(b, c, raw, first, v) && GoodLine(raw, first) && 0 < c.p && b[c.p] == '\n'
    ensures LineReady(b[EndAt(b, c) := NUL], c.key, v, Content(raw), first)
  {
    hide LineReady, GoodLine, Marked, ValueAt;
    EndIsContent(b, c, raw, first, v);
    EndMarksLine(b, c.key, c.p, EndAt(b, c));
    LineIsReady(b[EndAt(b, c) := NUL], c.key, v, raw, first);
  }

  /** A newline was found: it, or the CR before it, becomes the final NUL. */
  method FinishLine(buffer: array<char>, c: Cursor, value: Option<nat>, ghost raw: string, ghost first: bool)
    requires c.n > 0 && Scanned(buffer[..], c, raw, first, value)
    requires buffer[c.p] == '\n' && GoodLine(raw, first)
    modifies buffer
    ensures buffer[c.p + 1..c.p + c.n] == old(buffer[c.p + 1..c.p + c.n])
    ensures LineReady(buffer[..], c.key, value, Content(raw), first)
    ensures LineStart(buffer[..], c.p + 1) && (buffer[0] == old(buffer[0]) || buffer[0] == NUL)
  {
    hide Scanned, LineReady, GoodLine;
    EndIsContent(buffer[..], c, raw, first, value);
    EndedIsReady(buffer[..], c, raw, first, value);
    ghost var ended := buffer[..][EndAt(buffer[..], c) := NUL];
    if buffer[c.p - 1] == '\r' {
      buffer[c.p - 1] := NUL;
    } else {
      buffer[c.p] := NUL;
    }
    assert buffer[..] == ended;
    assert forall j :: c.p < j < c.p + c.n ==> buffer[j] == old(buffer[j]);
  }

  lemma EndOfLine(text: string, raw: string, ch: char, rest: string)
    requires text == raw + ([ch] + rest) && '\n' !in raw
    ensures text == (raw + [ch]) + rest
    ensures ch == '\n' ==> IndexOf(text, '\n') == |raw| && text[..|raw|] == raw && text[|raw| + 1..] == rest
  {
    if ch == '\n' {
      IndexOfIs(text, '\n', |raw|);
    }
  }

  lemma TakeOne(b: seq<char>, c: Cursor, more: string)
    requires c.n > 0 && c.p + c.n <= |b|
    ensures b[c.p..c.p + c.n] + more == [b[c.p]] + (b[c.p + 1..c.p + c.n] + more)
  {
    assert b[c.p..c.p + c.n] == [b[c.p]] + b[c.p + 1..c.p + c.n];
  }

  lemma NoEnd(text: string, raw: string, rest: string)
    requires text == raw + rest && '\n' !in raw
    ensures rest == [] ==> IndexOf(text, '\n') == |text|
    ensures |raw| <= IndexOf(text, '\n')
  {
    if rest == [] {
      IndexOfIs(text, '\n', |text|);
    }
  }

  /** The parser inside a line of `text`, of which `raw` has been scanned. */
  ghost predicate Reading(b: seq<char>, input: string, c: Cursor, raw: string, first: bool, v: Option<nat>,
                          text: string) {
    && START <= c.key <= c.p && c.p + c.n <= |b| && |raw| == c.p - c.key && '\n' !in raw
    && Scanned(b, c, raw, first, v)
    && text == raw + (b[c.p..c.p + c.n] + input)
  }

  /** The parser after the line `raw`, with `rest` to come. */
  ghost predicate LineBehind(b: seq<char>, input: string, c: Cursor, first: bool, v: Option<nat>, raw: string,
                             rest: string) {
    && c.key <= c.p && c.p + c.n <= |b| && LineStart(b, c.p)
    && rest == b[c.p..c.p + c.n] + input
    && LineReady(b, c.key, v, Content(raw), first)
  }

  /** The parser after the first line of `text`. */
  ghost predicate LineRead(b: seq<char>, input: string, c: Cursor, first: bool, v: Option<nat>, text: string) {
    var e := IndexOf(text, '\n');
    && e < |text| && e < BUFFER_SIZE
    && LineBehind(b, input, c, first, v, text[..e], text[e + 1..])
  }

  /** Whether a first line of acceptable length ends in `text`. */
  predicate HasLine(text: string) {
    IndexOf(text, '\n') < |text| && IndexOf(text, '\n') < BUFFER_SIZE
  }

  datatype Progress = NoLine | MoreToCome | LineEnd

  /** Scans to the end of a line; on success the line's strings end in NULs. */
  method ReadLine(s: Stream<char>, buffer: array<char>, c0: Cursor, first: bool, ghost text: string)
    returns (ok: bool, c: Cursor, value: Option<nat>)
    requires AtLine(buffer[..], s.input, c0, text)
    requires HasLine(text) ==> GoodLine(text[..IndexOf(text, '\n')], first)
    modifies buffer, s`input, s`open
    ensures buffer[0] != '\r'
    ensures !ok ==> !s.open
    ensures ok ==> s.open == old(s.open) && LineRead(buffer[..], s.input, c, first, value, text)
    ensures old(s.open) && s.reliable ==> (ok <==> HasLine(text))
  {
    hide Scanned, HasLine, LineRead, GoodLine;
    c, value := c0, None;
    ghost var raw := "";
    ScannedStart(buffer[..], c, first);
    assert buffer[..][c.p..c.p + c.n] == buffer[c.p..c.p + c.n];
    assert text == "" + (buffer[c.p..c.p + c.n] + s.input);
    var progress := MoreToCome;
    while progress.MoreToCome?
      invariant progress.MoreToCome? ==>
                  s.open == old(s.open) && Reading(buffer[..], s.input, c, raw, first, value, text)
      invariant progress.LineEnd? ==> s.open == old(s.open) && LineRead(buffer[..], s.input, c, first, value, text)
      invariant progress.NoLine? ==> !s.open
      invariant buffer[0] != '\r'
      invariant old(s.open) && s.reliable && !progress.MoreToCome? ==> (progress.LineEnd? <==> HasLine(text))
      decreases progress.MoreToCome?, |text| - |raw|
    {
      progress, c, value, raw := ReadChar(s, buffer, c, first, value, raw, text);
    }
    return progress.LineEnd?, c, value;
  }

  /** One turn of the scanning loop. */
  method ReadChar(s: Stream<char>, buffer: array<char>, c0: Cursor, first: bool, value0: Option<nat>,
                  ghost raw0: string, ghost text: string)
    returns (progress: Progress, c: Cursor, value: Option<nat>, ghost raw: string)
    requires buffer.Length == CELLS && buffer[0] != '\r' && Reading(buffer[..], s.input, c0, raw0, first, value0, text)
    requires HasLine(text) ==> GoodLine(text[..IndexOf(text, '\n')], first)
    modifies buffer, s`input, s`open
    ensures buffer[0] != '\r'
    ensures progress.MoreToCome? ==> s.open == old(s.open) && Reading(buffer[..], s.input, c, raw, first, value, text)
                                     && |text| - |raw| < |text| - |raw0|
    ensures progress.LineEnd? ==> s.open == old(s.open) && LineRead(buffer[..], s.input, c, first, value, text)
    ensures progress.NoLine? ==> !s.open
    ensures old(s.open) && s.reliable && !progress.MoreToCome? ==> (progress.LineEnd? <==> HasLine(text))
  {
    hide Reading, Scanned, LineRead, HasLine, IndexOf, GoodLine;
    progress, c, value, raw := MoreToCome, c0, value0, raw0;
    ReadingBounds(buffer[..], s.input, c, raw, first, value, text);
    if c.n == 0 {
      progress, c, value := NextRead(s, buffer, c, first, value, raw, text);
      if progress.NoLine? {
        return;
      }
      ReadingBounds(buffer[..], s.input, c, raw, first, value, text);
    }
    var ch := buffer[c.p];
    ghost var before := buffer[..];
    if ch == '\n' {
      NewlineFound(buffer[..], s.input, c, raw, first, value, text);
      FinishLine(buffer, c, value, raw, first);
      LineFinished(before, buffer[..], s.input, c, raw, first, value, text);
      c := Cursor(c.key, c.p + 1, c.n - 1);
      progress := LineEnd;
    } else {
      ghost var v := value;
      value := ScanChar(buffer, c, ch, first, value, raw);
      CharScanned(before, buffer[..], s.input, c, raw, ch, first, v, value, text);
      raw := raw + [ch];
      c := Cursor(c.key, c.p + 1, c.n - 1);
    }
  }

  lemma ReadingBounds(b: seq<char>, input: string, c: Cursor, raw: string, first: bool, v: Option<nat>, text: string)
    requires Reading(b, input, c, raw, first, v, text)
    ensures c.key <= c.p && c.p + c.n <= |b| && Scanned(b, c, raw, first, v) && |raw| <= |text|
    ensures 0 < c.n ==> |raw| < |text|
  {
    hide Scanned;
  }

  lemma NewlineFound(b: seq<char>, input: string, c: Cursor, raw: string, first: bool, v: Option<nat>, text: string)
    requires Reading(b, input, c, raw, first, v, text) && 0 < c.n && b[c.p] == '\n' && |b| == CELLS
    ensures HasLine(text) && text[..IndexOf(text, '\n')] == raw
  {
    hide Scanned;
    TakeOne(b, c, input);
    EndOfLine(text, raw, '\n', b[c.p + 1..c.p + c.n] + input);
  }

  lemma LineFinished(b: seq<char>, b': seq<char>, input: string, c: Cursor, raw: string, first: bool, v: Option<nat>,
                     text: string)
    requires Reading(b, input, c, raw, first, v, text) && 0 < c.n && b[c.p] == '\n' && |b| == |b'| == CELLS
    requires b'[c.p + 1..c.p + c.n] == b[c.p + 1..c.p + c.n] && LineReady(b', c.key, v, Content(raw), first)
    requires LineStart(b', c.p + 1)
    ensures LineRead(b', input, Cursor(c.key, c.p + 1, c.n - 1), first, v, text)
  {
    hide Scanned, LineReady, Content, IndexOf, LineBehind;
    var rest := b[c.p + 1..c.p + c.n] + input;
    TakeOne(b, c, input);
    EndOfLine(text, raw, '\n', rest);
    FinishedIsBehind(b', input, Cursor(c.key, c.p + 1, c.n - 1), first, v, raw, rest);
  }

  lemma FinishedIsBehind(b: seq<char>, input: string, c: Cursor, first: bool, v: Option<nat>, raw: string, rest: string)
    requires c.key <= c.p && c.p + c.n <= |b| && LineStart(b, c.p) && LineReady(b, c.key, v, Content(raw), first)
    requires rest == b[c.p..c.p + c.n] + input
    ensures LineBehind(b, input, c, first, v, raw, rest)
  {
  }

  lemma CharScanned(b: seq<char>, b': seq<char>, input: string, c: Cursor, raw: string, ch: char, first: bool,
                    v: Option<nat>, v': Option<nat>, text: string)
    requires Reading(b, input, c, raw, first, v, text)
    requires 0 < c.n && b[c.p] == ch && ch != '\n' && |b| == |b'|
    requires b'[c.p + 1..c.p + c.n] == b[c.p + 1..c.p + c.n]
    requires Scanned(b', Cursor(c.key, c.p + 1, c.n - 1), raw + [ch], first, v')
    ensures Reading(b', input, Cursor(c.key, c.p + 1, c.n - 1), raw + [ch], first, v', text)
  {
    hide Scanned;
    TakeOne(b, c, input);
    EndOfLine(text, raw, ch, b[c.p + 1..c.p + c.n] + input);
  }

  /** The buffer is used up: read more of the line, if there is room and if there is more. */
  method NextRead(s: Stream<char>, buffer: array<char>, c0: Cursor, first: bool, value0: Option<nat>, ghost raw: string,
                  ghost text: string) returns (progress: Progress, c: Cursor, value: Option<nat>)
    requires buffer.Length == CELLS && buffer[0] != '\r'
    requires c0.n == 0 && Reading(buffer[..], s.input, c0, raw, first, value0, text)
    modifies buffer, s`input, s`open
    ensures buffer[0] != '\r'
    ensures !progress.LineEnd?
    ensures progress.MoreToCome? ==> s.open == old(s.open) && 0 < c.n
                                     && Reading(buffer[..], s.input, c, raw, first, value, text)
    ensures progress.NoLine? ==> !s.open
    ensures old(s.open) && s.reliable && progress.NoLine? ==> !HasLine(text)
  {
    hide Scanned, Reading, HasLine;
    UsedUp(buffer[..], s.input, c0, raw, first, value0, text);
    var ok;
    ok, c, value := Refill(s, buffer, c0, value0, raw, first);
    if !ok {
      return NoLine, c, value;
    }
    assert buffer[..][c.p..c.p + c.n] == buffer[c.p..c.p + c.n];
    ReadsOn(buffer[..], s.input, c, raw, first, value, text);
    return MoreToCome, c, value;
  }

  lemma UsedUp(b: seq<char>, input: string, c: Cursor, raw: string, first: bool, v: Option<nat>, text: string)
    requires Reading(b, input, c, raw, first, v, text) && c.n == 0
    ensures Scanned(b, c, raw, first, v) && text == raw + input && '\n' !in raw
    ensures input == [] || |raw| == BUFFER_SIZE ==> !HasLine(text)
  {
    hide Scanned;
    assert b[c.p..c.p] == [];
    NoEnd(text, raw, input);
  }

  lemma ReadsOn(b: seq<char>, input: string, c: Cursor, raw: string, first: bool, v: Option<nat>, text: string)
    requires START <= c.key <= c.p && c.p + c.n <= |b| && |raw| == c.p - c.key && '\n' !in raw
    requires Scanned(b, c, raw, first, v) && text == raw + (b[c.p..c.p + c.n] + input)
    ensures Reading(b, input, c, raw, first, v, text)
  {
    hide Scanned;
  }

  /** One more character of the line, which may be the first colon of a header. */
  method ScanChar(buffer: array<char>, c: Cursor, ch: char, first: bool, value: Option<nat>, ghost raw: string)
    returns (value': Option<nat>)
    requires c.n > 0 && Scanned(buffer[..], c, raw, first, value)
    requires buffer[c.p] == ch && ch != '\n'
    modifies buffer
    ensures Scanned(buffer[..], Cursor(c.key, c.p + 1, c.n - 1), raw + [ch], first, value')
    ensures buffer[c.p + 1..c.p + c.n] == old(buffer[c.p + 1..c.p + c.n])
    ensures buffer[0] == old(buffer[0])
  {
    MarkedNext(raw, ch, first);
    ghost var before := buffer[..];
    value' := value;
    if !first && value.None? && ch == ':' {
      value' := Some(c.p + 2);
      buffer[c.p] := NUL;
    }
    assert buffer[..][c.key..c.p + 1] == before[c.key..c.p] + [buffer[c.p]];
  }

  lemma LineMeans(b: seq<char>, key: nat, value: Option<nat>, l: string, first: bool)
    requires LineReady(b, key, value, l, first)
    ensures key <= |b| && LineStrings(b, key, value, l, first)
  {
    hide CString;
  }

  /** The parser at the start of a line, with `text` still to come. */
  ghost predicate AtLine(b: seq<char>, input: string, c: Cursor, text: string) {
    && |b| == CELLS && b[0] != '\r' && c.key == c.p && c.p + c.n <= |b| && LineStart(b, c.p)
    && text == b[c.p..c.p + c.n] + input
  }

  lemma FirstLine(b: seq<char>, input: string, c: Cursor, text: string)
    requires |b| == CELLS && b[0] != '\r' && c.key == c.p == START && c.p + c.n <= |b|
    requires text == b[c.p..c.p + c.n] + input
    ensures AtLine(b, input, c, text)
  {
  }

  lemma LineTaken(b: seq<char>, input: string, c: Cursor, first: bool, v: Option<nat>, text: string)
    requires |b| == CELLS && b[0] != '\r' && LineRead(b, input, c, first, v, text)
    ensures var e := IndexOf(text, '\n');
            && e < |text| && e < BUFFER_SIZE && AtLine(b, input, Cursor(c.p, c.p, c.n), text[e + 1..])
            && c.key <= |b| && LineStrings(b, c.key, v, Content(text[..e]), first)
  {
    hide LineStrings, AtLine, Content, IndexOf, LineBehind;
    var e := IndexOf(text, '\n');
    LineIsBehind(b, input, c, first, v, text[..e], text[e + 1..]);
  }

  lemma LineIsBehind(b: seq<char>, input: string, c: Cursor, first: bool, v: Option<nat>, raw: string, rest: string)
    requires |b| == CELLS && b[0] != '\r' && LineBehind(b, input, c, first, v, raw, rest)
    ensures AtLine(b, input, Cursor(c.p, c.p, c.n), rest)
    ensures c.key <= |b| && LineStrings(b, c.key, v, Content(raw), first)
  {
    hide LineReady, Content, LineStrings;
    LineMeans(b, c.key, v, Content(raw), first);
  }

  /** What the code makes of the strings of a line. */
  predicate LineStrings(b: seq<char>, key: nat, value: Option<nat>, l: string, first: bool)
    requires key <= |b|
  {
    && (CString(b, key) == [] && value.None? <==> l == [])
    && (value.None? <==> first || !HasColon(l))
    && (value.None? ==> CString(b, key) == l)
    && (value.Some? ==>
          value.value <= |b| && CString(b, key) == KeyOf(l) && Reads(l, CString(b, value.value)))
  }

  /** Reads and parses the handshake.  `host` is the only acceptable value of the Host field,
      localhost and the port.  `before` is the byte of memory before the buffer.  On any
      connection, what is accepted is what the parser of the whole stream accepts. */
  method ReadHeader(s: Stream<char>, host: string, before: char) returns (accepted: bool, key: string)
    requires WellFormed(s.input, true) && before != '\r' && "localhost:" <= host
    modifies s`input, s`output, s`open
    ensures !accepted ==> !s.open
    ensures accepted ==> Parse(old(s.input), true, {}, "", host) == Accepted(key)
    ensures accepted ==> s.open == old(s.open) && s.output == old(s.output)
    ensures old(s.open) && s.reliable ==>
              match Parse(old(s.input), true, {}, "", host)
              case Dropped => !accepted && s.output == old(s.output)
              case Refused(ok) => !accepted && s.output == old(s.output) + ErrorAnswer(ok)
              case Accepted(k) => accepted && key == k && s.output == old(s.output)
  {
    hide ErrorAnswer, RequestFields, HeaderFields, NextKey, Parse, WellFormed, IndexOf, LineReady, CString, Content,
         LineRead, AtLine;
    key := "";
    var first, ok: set<Field> := true, {};
    var buffer := new char[CELLS];
    buffer[0] := before;
    ParseStep(s.input, true, {}, "", host);
    var n := s.Read(buffer, START, BUFFER_SIZE);
    if n <= 0 {
      s.Close();
      return false, key;
    }
    var c := Cursor(START, START, n);
    ghost var text := old(s.input);
    assert text == buffer[c.p..c.p + c.n] + s.input;
    FirstLine(buffer[..], s.input, c, text);
    while true
      invariant AtLine(buffer[..], s.input, c, text)
      invariant s.open == old(s.open) && s.output == old(s.output)
      invariant WellFormed(text, first)
      invariant Parse(old(s.input), true, {}, "", host) == Parse(text, first, ok, key, host)
      decreases |text|
    {
      var read, value;
      ParseStep(text, first, ok, key, host);
      read, c, value := ReadLine(s, buffer, c, first, text);
      if !read {
        return false, key;
      }
      LineTaken(buffer[..], s.input, c, first, value, text);
      var k := CString(buffer[..], c.key);
      if k == [] && value.None? {
        break;
      }
      ghost var e := IndexOf(text, '\n');
      if first {
        first := false;
        ok := ok + RequestFields(k);
      } else {
        if value.None? {
          SendError(s, {});
          return false, key;
        }
        var v := CString(buffer[..], value.value);
        ReadsAlike(Content(text[..e]), v, host, key);
        ok, key := ok + HeaderFields(k, v, host), NextKey(k, v, key);
      }
      text := text[e + 1..];
      c := Cursor(c.p, c.p, c.n);
    }
    if ok != ALL_FIELDS {
      SendError(s, ok);
      return false, key;
    }
    return true, key;
  }
}
