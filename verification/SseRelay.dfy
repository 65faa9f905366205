/** Relaying an event stream while hiding the usage-only event the proxy provoked.  Streams are
    decoded text; the stream a client sees is interpreted as section 9.2.6 of the WHATWG HTML
    Living Standard ("Interpreting an event stream") says. */
module SseRelay {
  import opened Common

  const NO_TOKENS := Tokens(0, 0, 0)

  /** What the proxy reads out of one data payload: the number of choices and the usage, if any. */
  datatype Chunk = Chunk(choices: nat, usage: Option<Tokens>)

  /** Decoding of a payload; `None` when it is not a JSON object of that shape. */
  type Parser = string -> Option<Chunk>

  datatype ReadEnd = EndOfStream | ReadError(clientGone: bool)

  // ---- What the relay sees of a line ----------------------------------------------------------

  function StripOneSpace(s: string): string {
    if s != "" && s[0] == ' ' then s[1..] else s
  }

  const DATA := "data:"

  function PayloadOf(line: string): Option<string> {
    var trimmed := TrimSpace(line);
    if DATA <= trimmed then Some(StripOneSpace(trimmed[5..])) else None
  }

  /** The usage a payload carries, and whether the payload carries nothing else. */
  function UsageIn(payload: string, parse: Parser): Option<Tokens> {
    if payload == "[DONE]" || parse(payload).None? then None else parse(payload).value.usage
  }

  predicate UsageOnly(payload: string, parse: Parser) {
    UsageIn(payload, parse).Some? && parse(payload).value.choices == 0
  }

  predicate Suppressed(line: string, injected: bool, parse: Parser) {
    injected && PayloadOf(line).Some? && UsageOnly(PayloadOf(line).value, parse)
  }

  // ---- The relay ------------------------------------------------------------------------------

  function LineEnd(s: string, i: nat): (j: nat)
    requires i < |s|
    ensures i < j <= |s|
    decreases |s| - i
  {
    if s[i] == '\n' || i + 1 == |s| then i + 1 else LineEnd(s, i + 1)
  }

  /** The stream cut after each line feed. */
  function Lines(s: string): seq<string>
    decreases |s|
  {
    if s == "" then [] else [s[..LineEnd(s, 0)]] + Lines(s[LineEnd(s, 0)..])
  }

  function Relayed(lines: seq<string>, injected: bool, parse: Parser): string {
    if lines == [] then ""
    else (if Suppressed(lines[0], injected, parse) then "" else lines[0]) + Relayed(lines[1..], injected, parse)
  }

  /** The last usage seen on any data line. */
  function LastUsage(lines: seq<string>, parse: Parser): Tokens {
    if lines == [] then NO_TOKENS
    else
      var payload := PayloadOf(lines[|lines| - 1]);
      if payload.Some? && UsageIn(payload.value, parse).Some? then UsageIn(payload.value, parse).value
      else LastUsage(lines[..|lines| - 1], parse)
  }

  function Utf8Length(c: char): nat {
    if c as int < 0x80 then 1 else if c as int < 0x800 then 2 else if c as int < 0x1_0000 then 3 else 4
  }

  /** A character takes the fewest bytes that hold its code: 7, 11, 16 and 21 bits fit in one to four of them. */
  lemma FewestBytes(c: char)
    ensures var n, code := Utf8Length(c), c as int;
            (n == 1 && code <= 127) || (n == 2 && 127 < code <= 2047) || (n == 3 && 2047 < code <= 65535) ||
            (n == 4 && 65535 < code)
  {}

  function ByteLength(s: string): nat {
    if s == "" then 0 else Utf8Length(s[0]) + ByteLength(s[1..])
  }

  lemma {:induction false} ByteLengthAppend(a: string, b: string)
    ensures ByteLength(a + b) == ByteLength(a) + ByteLength(b)
  {
    if a == "" {
      assert a + b == b;
    } else {
      assert (a + b)[1..] == a[1..] + b;
      ByteLengthAppend(a[1..], b);
    }
  }

  lemma {:induction false} RelayedAppend(lines: seq<string>, line: string, injected: bool, parse: Parser)
    ensures Relayed(lines + [line], injected, parse) ==
            Relayed(lines, injected, parse) + if Suppressed(line, injected, parse) then "" else line
  {
    if lines == [] {
      assert [line][1..] == [];
    } else {
      assert (lines + [line])[1..] == lines[1..] + [line];
      RelayedAppend(lines[1..], line, injected, parse);
    }
  }

  /** The usage after one more line. */
  function Seen(usage: Tokens, line: string, parse: Parser): Tokens {
    var payload := PayloadOf(line);
    if payload.Some? && UsageIn(payload.value, parse).Some? then UsageIn(payload.value, parse).value else usage
  }

  /** The chunk that asking for usage provokes: usage, and no choices at all. */
  ghost predicate Provoked(payload: string, parse: Parser) {
    payload != "[DONE]" && exists u :: parse(payload) == Some(Chunk(0, Some(u)))
  }

  /** The usage a payload reports, whatever else it carries, or else what was known before. */
  function Reported(payload: string, parse: Parser, before: Tokens): Tokens {
    if payload == "[DONE]" then before
    else match parse(payload)
         case Some(Chunk(_, Some(u))) => u
         case _ => before
  }

  /** Observes a line before it is relayed. */
  method Observe(line: string, usage: Tokens, injected: bool, parse: Parser) returns (usage': Tokens, suppress: bool)
    ensures usage' == Seen(usage, line, parse) && suppress == Suppressed(line, injected, parse)
    ensures suppress <==> injected && PayloadOf(line).Some? && Provoked(PayloadOf(line).value, parse)
    ensures usage' == if PayloadOf(line).Some? then Reported(PayloadOf(line).value, parse, usage) else usage
  {
    usage', suppress := usage, false;
    var trimmed := TrimSpace(line);
    if DATA <= trimmed {
      var data := StripOneSpace(trimmed[5..]);
      if data != "[DONE]" {
        var chunk := parse(data);
        if chunk.Some? && chunk.value.usage.Some? {
          usage' := chunk.value.usage.value;
          suppress := injected && chunk.value.choices == 0;
        }
      }
    }
  }

  /** The stream loop: observe each line, relay it unless it is the provoked usage chunk. */
  method Relay(body: string, end: ReadEnd, injected: bool, parse: Parser)
    returns (out: string, usage: Tokens, bytesWritten: nat, status: Status)
    ensures out == Relayed(Lines(body), injected, parse)
    ensures usage == LastUsage(Lines(body), parse)
    ensures bytesWritten == ByteLength(out)
    ensures status == if end.EndOfStream? then Completed else if end.clientGone then Partial else Error
  {
    hide Suppressed, Seen, ByteLength, Lines, Relayed, LastUsage;
    out, usage, bytesWritten := "", NO_TOKENS, 0;
    Start(injected, parse);
    NoLines();
    var rest := body;
    ghost var seen: seq<string> := [];
    assert [] + Lines(body) == Lines(body);
    while rest != ""
      invariant Lines(body) == seen + Lines(rest)
      invariant out == Relayed(seen, injected, parse) && usage == LastUsage(seen, parse) &&
                bytesWritten == ByteLength(out)
      decreases |rest|
    {
      var line := rest[..LineEnd(rest, 0)];
      var suppress;
      RelayedAppend(seen, line, injected, parse);
      LastUsageAppend(seen, line, parse);
      usage, suppress := Observe(line, usage, injected, parse);
      if !suppress {
        ByteLengthAppend(out, line);
        out := out + line;
        bytesWritten := bytesWritten + ByteLength(line);
      }
      LinesStep(seen, rest);
      seen := seen + [line];
      rest := rest[|line|..];
    }
    assert seen + Lines("") == seen by { NoLines(); }
    status := if end.EndOfStream? then Completed else if end.clientGone then Partial else Error;
  }

  lemma Start(injected: bool, parse: Parser)
    ensures ByteLength("") == 0 && Relayed([], injected, parse) == "" && LastUsage([], parse) == NO_TOKENS
  {}

  lemma NoLines()
    ensures Lines("") == []
  {}

  lemma LinesStep(seen: seq<string>, rest: string)
    requires rest != ""
    ensures var line := rest[..LineEnd(rest, 0)]; seen + Lines(rest) == seen + [line] + Lines(rest[|line|..])
  {}

  lemma LastUsageAppend(lines: seq<string>, line: string, parse: Parser)
    ensures LastUsage(lines + [line], parse) == Seen(LastUsage(lines, parse), line, parse)
  {
    assert (lines + [line])[..|lines|] == lines;
  }

  /** Without injection the bytes are passed through unchanged. */
  lemma {:induction false} PassThrough(body: string, parse: Parser)
    ensures Relayed(Lines(body), false, parse) == body
    decreases |body|
  {
    if body != "" {
      var n := LineEnd(body, 0);
      PassThrough(body[n..], parse);
      hide LineEnd, PayloadOf, UsageOnly;
      assert Lines(body) == [body[..n]] + Lines(body[n..]);
      hide Lines;
      RelayedFirst(body[..n], Lines(body[n..]), parse);
      assert body == body[..n] + body[n..];
    }
  }

  lemma RelayedFirst(line: string, rest: seq<string>, parse: Parser)
    ensures Relayed([line] + rest, false, parse) == line + Relayed(rest, false, parse)
  {
    assert ([line] + rest)[1..] == rest;
  }

  // ---- What a client makes of a stream ---------------------------------------------------------

  datatype Event = Event(kind: string, data: string, lastEventId: string)

  /** The buffers of the interpreter and the events it has dispatched. */
  datatype Reader = Reader(data: string, kind: string, lastId: string, events: seq<Event>)

  const NEW_READER := Reader("", "", "", [])

  /** The complete lines of a stretch of stream, ended by CR, LF or CRLF; `cur` is the line begun. */
  function SseLines(s: string, cur: string): seq<string>
    decreases |s|
  {
    if s == "" then []
    else if s[0] == '\n' then [cur] + SseLines(s[1..], "")
    else if s[0] == '\r' then [cur] + SseLines(if |s| > 1 && s[1] == '\n' then s[2..] else s[1..], "")
    else SseLines(s[1..], cur + [s[0]])
  }

  function ColonAt(line: string, i: nat): (j: nat)
    requires i <= |line|
    ensures i <= j <= |line| && (j < |line| ==> line[j] == ':') && forall k :: i <= k < j ==> line[k] != ':'
    decreases |line| - i
  {
    if i == |line| || line[i] == ':' then i else ColonAt(line, i + 1)
  }

  function FieldName(line: string): string {
    line[..ColonAt(line, 0)]
  }

  function FieldValue(line: string): string {
    var c := ColonAt(line, 0);
    if c == |line| then "" else StripOneSpace(line[c + 1..])
  }

  function Dispatch(r: Reader): Reader {
    if r.data == "" then r.(kind := "")
    else
      var e := Event(if r.kind == "" then "message" else r.kind, r.data[..|r.data| - 1], r.lastId);
      Reader("", "", r.lastId, r.events + [e])
  }

  function Feed(r: Reader, line: string): Reader {
    if line == "" then Dispatch(r)
    else
      var name, value := FieldName(line), FieldValue(line);
      if name == "event" then r.(kind := value)
      else if name == "data" then r.(data := r.data + value + "\n")
      else if name == "id" && '\0' !in value then r.(lastId := value)
      else r
  }

  function FeedAll(r: Reader, lines: seq<string>): Reader
    decreases |lines|
  {
    if lines == [] then r else FeedAll(Feed(r, lines[0]), lines[1..])
  }

  function Interpret(stream: string): seq<Event> {
    FeedAll(NEW_READER, SseLines(stream, "")).events
  }

  /** An event whose payload, trailing white space aside, carries usage and no choices. */
  predicate UsageEvent(e: Event, parse: Parser) {
    UsageOnly(TrimRight(e.data), parse)
  }

  function WithoutUsage(events: seq<Event>, parse: Parser): seq<Event> {
    if events == [] then []
    else
      var n := |events| - 1;
      WithoutUsage(events[..n], parse) + if UsageEvent(events[n], parse) then [] else [events[n]]
  }

  // ---- A condition for any line ends -----------------------------------------------------------------

  /** The line is one `data:` field, ended by LF, CRLF, or the CR that ends the stream. */
  ghost predicate SingleDataLine(line: string) {
    exists v: string :: DataLine(line, v)
  }

  ghost predicate DataLine(line: string, v: string) {
    '\n' !in v && '\r' !in v && (line == DATA + v + "\n" || line == DATA + v + "\r\n" || line == DATA + v + "\r")
  }

  /** A line the relay keeps, read by the upstream reader `r`.  `hidden` says the event being built
      already consists of a suppressed data line: then it gets no second one.  Otherwise the event
      it completes is not usage-only. */
  ghost predicate KeptLineOk(r: Reader, hidden: bool, line: string, parse: Parser) {
    && (line != "" && FieldName(line) == "data" ==> !hidden)
    && (line == "" && !hidden && r.data != "" ==> !UsageOnly(TrimRight(r.data[..|r.data| - 1]), parse))
  }

  ghost predicate KeptLinesOk(r: Reader, hidden: bool, lines: seq<string>, parse: Parser)
    decreases |lines|
  {
    lines == [] ||
    (KeptLineOk(r, hidden, lines[0], parse) &&
     KeptLinesOk(Feed(r, lines[0]), hidden && lines[0] != "", lines[1..], parse))
  }

  ghost function HiddenAfter(hidden: bool, lines: seq<string>): bool {
    if lines == [] then hidden else HiddenAfter(hidden && lines[0] != "", lines[1..])
  }

  /** Walks the upstream stream line feed by line feed. */
  ghost predicate UsageEventsSingle(r: Reader, hidden: bool, lines: seq<string>, parse: Parser)
    decreases |lines|
  {
    lines == [] ||
    var read := SseLines(lines[0], "");
    if Suppressed(lines[0], true, parse) then
      if read == [] then UsageEventsSingle(r, hidden, lines[1..], parse)
      else
        SingleDataLine(lines[0]) && !hidden && r.data == "" &&
        UsageEventsSingle(FeedAll(r, read), true, lines[1..], parse)
    else
      KeptLinesOk(r, hidden, read, parse) &&
      UsageEventsSingle(FeedAll(r, read), HiddenAfter(hidden, read), lines[1..], parse)
  }

  // ---- Proof ---------------------------------------------------------------------------------------

  /** The client's reader `s` against the upstream's `r`: same type and id buffers, same events less
      the usage-only ones; and either the same data, or none where upstream has the hidden line. */
  ghost predicate Hides(r: Reader, s: Reader, hidden: bool, parse: Parser) {
    && r.kind == s.kind && r.lastId == s.lastId && s.events == WithoutUsage(r.events, parse)
    && if hidden then s.data == "" && r.data != "" && UsageOnly(TrimRight(r.data[..|r.data| - 1]), parse)
       else s.data == r.data
  }

  /** Two readers dispatch the same data alike, unless it is usage-only. */
  lemma DispatchHides(r: Reader, s: Reader, parse: Parser)
    requires Hides(r, s, false, parse) && (r.data != "" ==> !UsageOnly(TrimRight(r.data[..|r.data| - 1]), parse))
    ensures Hides(Dispatch(r), Dispatch(s), false, parse)
  {
    if r.data != "" {
      var r' := Dispatch(r);
      assert r'.events[..|r'.events| - 1] == r.events;
    }
  }

  lemma HiddenDispatchHides(r: Reader, s: Reader, parse: Parser)
    requires Hides(r, s, true, parse)
    ensures Hides(Dispatch(r), Dispatch(s), false, parse)
  {
    var r' := Dispatch(r);
    assert r'.events[..|r'.events| - 1] == r.events;
  }

  lemma FieldHides(r: Reader, s: Reader, hidden: bool, line: string, parse: Parser)
    requires Hides(r, s, hidden, parse) && line != "" && (FieldName(line) == "data" ==> !hidden)
    ensures Hides(Feed(r, line), Feed(s, line), hidden, parse)
  {
    hide UsageOnly, FieldName, FieldValue, WithoutUsage;
  }

  lemma KeptLineHides(r: Reader, s: Reader, hidden: bool, line: string, parse: Parser)
    requires Hides(r, s, hidden, parse) && KeptLineOk(r, hidden, line, parse)
    ensures Hides(Feed(r, line), Feed(s, line), hidden && line != "", parse)
  {
    hide Hides, UsageOnly, FieldName, Dispatch;
    if line != "" {
      FieldHides(r, s, hidden, line, parse);
    } else if hidden {
      HiddenDispatchHides(r, s, parse);
    } else {
      DispatchHides(r, s, parse);
    }
  }

  lemma {:induction false} KeptLinesHide(r: Reader, s: Reader, hidden: bool, lines: seq<string>, parse: Parser)
    requires Hides(r, s, hidden, parse) && KeptLinesOk(r, hidden, lines, parse)
    ensures Hides(FeedAll(r, lines), FeedAll(s, lines), HiddenAfter(hidden, lines), parse)
    decreases |lines|
  {
    if lines != [] {
      KeptLineHides(r, s, hidden, lines[0], parse);
      KeptLinesHide(Feed(r, lines[0]), Feed(s, lines[0]), hidden && lines[0] != "", lines[1..], parse);
    }
  }

  lemma {:induction false} SseLinesSplit(c: string, rest: string, cur: string)
    requires c != "" && c[|c| - 1] == '\n'
    ensures SseLines(c + rest, cur) == SseLines(c, cur) + SseLines(rest, "")
    decreases |c|
  {
    var whole := c + rest;
    if c[0] == '\n' {
      if |c| == 1 {
        assert whole[1..] == rest && c[1..] == "";
      } else {
        assert whole[1..] == c[1..] + rest;
        SseLinesSplit(c[1..], rest, "");
      }
    } else if c[0] == '\r' {
      if c[1] == '\n' {
        assert whole[2..] == c[2..] + rest;
        if |c| == 2 {
          assert whole[2..] == rest && c[2..] == "";
        } else {
          SseLinesSplit(c[2..], rest, "");
        }
      } else {
        assert whole[1..] == c[1..] + rest;
        SseLinesSplit(c[1..], rest, "");
      }
    } else {
      assert whole[1..] == c[1..] + rest;
      SseLinesSplit(c[1..], rest, cur + [c[0]]);
    }
  }

  lemma {:induction false} FeedAllSplit(r: Reader, a: seq<string>, b: seq<string>)
    ensures FeedAll(r, a + b) == FeedAll(FeedAll(r, a), b)
    decreases |a|
  {
    if a == [] {
      assert a + b == b;
    } else {
      assert (a + b)[1..] == a[1..] + b;
      FeedAllSplit(Feed(r, a[0]), a[1..], b);
    }
  }

  lemma {:induction false} TrimRightEnd(s: string, eol: string)
    requires forall i :: 0 <= i < |eol| ==> IsSpace(eol[i])
    ensures TrimRight(s + eol) == TrimRight(s)
    decreases |eol|
  {
    if eol == "" {
      assert s + eol == s;
    } else {
      assert (s + eol)[..|s + eol| - 1] == s + eol[..|eol| - 1];
      TrimRightEnd(s, eol[..|eol| - 1]);
    }
  }

  lemma {:induction false} TrimRightAfter(prefix: string, s: string)
    requires prefix != "" && !IsSpace(prefix[|prefix| - 1])
    ensures TrimRight(prefix + s) == prefix + TrimRight(s)
    decreases |s|
  {
    if s == "" {
      assert prefix + s == prefix;
    } else if IsSpace(s[|s| - 1]) {
      assert (prefix + s)[..|prefix + s| - 1] == prefix + s[..|s| - 1];
      TrimRightAfter(prefix, s[..|s| - 1]);
    }
  }

  lemma {:induction false} StripCommutes(v: string)
    ensures StripOneSpace(TrimRight(v)) == TrimRight(StripOneSpace(v))
    decreases |v|
  {
    if v != "" && v[0] == ' ' {
      if IsSpace(v[|v| - 1]) {
        StripCommutes(v[..|v| - 1]);
        if |v| > 1 {
          assert v[1..][..|v[1..]| - 1] == v[..|v| - 1][1..];
        }
      }
    } else if v != "" && IsSpace(v[|v| - 1]) {
      StripCommutes(v[..|v| - 1]);
      TrimRightKeepsFirst(v);
    }
  }

  lemma {:induction false} TrimRightKeepsFirst(v: string)
    ensures TrimRight(v) != "" ==> v != "" && TrimRight(v)[0] == v[0]
    decreases |v|
  {
    if v != "" && IsSpace(v[|v| - 1]) {
      TrimRightKeepsFirst(v[..|v| - 1]);
    }
  }

  lemma DataLinePayload(line: string, v: string)
    requires DataLine(line, v)
    ensures PayloadOf(line) == Some(TrimRight(StripOneSpace(v)))
  {
    var eol := if line == DATA + v + "\n" then "\n" else if line == DATA + v + "\r\n" then "\r\n" else "\r";
    assert line == DATA + v + eol;
    assert line[0] == 'd' && TrimLeft(line) == line;
    TrimRightEnd(DATA + v, eol);
    assert DATA[4] == ':';
    TrimRightAfter(DATA, v);
    assert (DATA + TrimRight(v))[5..] == TrimRight(v);
    StripCommutes(v);
  }

  lemma {:induction false} SseLinesOfPlain(v: string, eol: string, cur: string)
    requires '\n' !in v && '\r' !in v && (eol == "\n" || eol == "\r\n" || eol == "\r")
    ensures SseLines(v + eol, cur) == [cur + v]
    decreases |v|
  {
    if v == "" {
      assert v + eol == eol && cur + v == cur;
      assert eol[1..] == "" || (eol[1..] == "\n" && eol[2..] == "");
    } else {
      assert (v + eol)[1..] == v[1..] + eol;
      SseLinesOfPlain(v[1..], eol, cur + [v[0]]);
      assert cur + [v[0]] + v[1..] == cur + v;
    }
  }

  lemma DataLineReads(r: Reader, line: string, v: string)
    requires DataLine(line, v) && r.data == ""
    ensures SseLines(line, "") == [DATA + v]
    ensures FeedAll(r, SseLines(line, "")) == r.(data := StripOneSpace(v) + "\n")
  {
    var eol := if line == DATA + v + "\n" then "\n" else if line == DATA + v + "\r\n" then "\r\n" else "\r";
    assert line == (DATA + v) + eol;
    SseLinesOfPlain(DATA + v, eol, "");
    var l := DATA + v;
    assert "" + l == l;
    assert ColonAt(l, 0) == 4 by { assert l[0] == 'd' && l[1] == 'a' && l[2] == 't' && l[3] == 'a' && l[4] == ':'; }
    assert l[..4] == "data" && l[5..] == v;
    assert FeedAll(r, [l]) == FeedAll(Feed(r, l), [l][1..]);
    assert "" + StripOneSpace(v) == StripOneSpace(v);
  }

  lemma SuppressedLineHides(r: Reader, s: Reader, line: string, parse: Parser)
    requires Hides(r, s, false, parse) && Suppressed(line, true, parse) && SingleDataLine(line) && r.data == ""
    ensures Hides(FeedAll(r, SseLines(line, "")), s, true, parse)
  {
    var v :| DataLine(line, v);
    DataLinePayload(line, v);
    DataLineReads(r, line, v);
    var data := StripOneSpace(v);
    assert (data + "\n")[..|data + "\n"| - 1] == data;
  }

  /** Every line but the last ends with its line feed. */
  ghost predicate Cut(lines: seq<string>) {
    forall i :: 0 <= i < |lines| ==> lines[i] != "" && (i < |lines| - 1 ==> lines[i][|lines[i]| - 1] == '\n')
  }

  lemma LineEndCuts(s: string, i: nat)
    requires i < |s|
    ensures LineEnd(s, i) < |s| ==> s[LineEnd(s, i) - 1] == '\n'
    decreases |s| - i
  {}

  lemma {:induction false} LinesAreCut(s: string)
    ensures Cut(Lines(s))
    decreases |s|
  {
    if s != "" {
      LineEndCuts(s, 0);
      LinesAreCut(s[LineEnd(s, 0)..]);
    }
  }

  /** The client reads the relayed text of some lines as upstream's reader reads all of them. */
  lemma SplitFirst(r: Reader, line: string, rest: string)
    requires rest == "" || (line != "" && line[|line| - 1] == '\n')
    ensures FeedAll(r, SseLines(line + rest, "")) == FeedAll(FeedAll(r, SseLines(line, "")), SseLines(rest, ""))
  {
    if rest == "" {
      assert line + rest == line;
    } else {
      SseLinesSplit(line, rest, "");
      FeedAllSplit(r, SseLines(line, ""), SseLines(rest, ""));
    }
  }

  lemma CutRest(lines: seq<string>)
    requires lines != [] && Cut(lines)
    ensures Cut(lines[1..])
    ensures lines[1..] == [] || (lines[0] != "" && lines[0][|lines[0]| - 1] == '\n')
  {}

  lemma CutFirst(lines: seq<string>, injected: bool, parse: Parser)
    requires lines != [] && Cut(lines)
    ensures Cut(lines[1..])
    ensures var text := Relayed(lines[1..], injected, parse);
            (text == "" || (lines[0] != "" && lines[0][|lines[0]| - 1] == '\n')) &&
            Relayed(lines, injected, parse) == (if Suppressed(lines[0], injected, parse) then "" else lines[0]) + text
  {
    CutRest(lines);
    hide Cut, Suppressed;
  }

  /** What reading a line, if it is relayed, makes of a reader. */
  function Read(r: Reader, line: string, injected: bool, parse: Parser): Reader {
    if Suppressed(line, injected, parse) then r else FeedAll(r, SseLines(line, ""))
  }

  lemma ReadFirst(r: Reader, lines: seq<string>, injected: bool, parse: Parser)
    requires lines != [] && Cut(lines)
    ensures FeedAll(r, SseLines(Relayed(lines, injected, parse), "")) ==
            FeedAll(Read(r, lines[0], injected, parse), SseLines(Relayed(lines[1..], injected, parse), ""))
  {
    CutFirst(lines, injected, parse);
    var text := Relayed(lines[1..], injected, parse);
    hide SseLines, FeedAll, Suppressed, Relayed, Cut;
    if Suppressed(lines[0], injected, parse) {
      assert "" + text == text;
    } else {
      SplitFirst(r, lines[0], text);
    }
  }

  /** Whether the event being read consists of a suppressed data line after one more line. */
  ghost function HiddenNow(hidden: bool, line: string, parse: Parser): bool {
    var read := SseLines(line, "");
    if Suppressed(line, true, parse) then hidden || read != [] else HiddenAfter(hidden, read)
  }

  lemma LineHides(r: Reader, s: Reader, hidden: bool, lines: seq<string>, parse: Parser)
    requires lines != [] && Hides(r, s, hidden, parse) && UsageEventsSingle(r, hidden, lines, parse)
    ensures var line := lines[0];
            var r', hidden' := Read(r, line, false, parse), HiddenNow(hidden, line, parse);
            Hides(r', Read(s, line, true, parse), hidden', parse) && UsageEventsSingle(r', hidden', lines[1..], parse)
  {
    var line := lines[0];
    var read := SseLines(line, "");
    NothingRead(r);
    hide SseLines, FeedAll, KeptLinesOk, SingleDataLine, WithoutUsage, HiddenAfter, PayloadOf, UsageOnly;
    if Suppressed(line, true, parse) {
      if read != [] { SuppressedLineHides(r, s, line, parse); }
    } else {
      hide Hides;
      KeptLinesHide(r, s, hidden, read, parse);
    }
  }

  lemma {:induction false} RelayHides(r: Reader, s: Reader, hidden: bool, lines: seq<string>, parse: Parser)
    requires Cut(lines) && Hides(r, s, hidden, parse) && UsageEventsSingle(r, hidden, lines, parse)
    ensures FeedAll(s, SseLines(Relayed(lines, true, parse), "")).events ==
            WithoutUsage(FeedAll(r, SseLines(Relayed(lines, false, parse), "")).events, parse)
    decreases |lines|
  {
    if lines != [] {
      CutRest(lines);
      LineHides(r, s, hidden, lines, parse);
      hide Hides, SseLines, FeedAll, Relayed, Cut, WithoutUsage, UsageEventsSingle, Read, HiddenNow;
      ReadFirst(r, lines, false, parse);
      ReadFirst(s, lines, true, parse);
      var line := lines[0];
      var r', s' := Read(r, line, false, parse), Read(s, line, true, parse);
      RelayHides(r', s', HiddenNow(hidden, line, parse), lines[1..], parse);
    }
  }

  lemma NothingRead(r: Reader)
    ensures FeedAll(r, []) == r
  {}

  /** Whatever the line ends: when include_usage was injected, and every line that is held back either
      holds nothing a client reads or is the only data line of a usage-only event, and every
      usage-only event is held back, the client dispatches exactly the upstream events minus the
      usage-only ones, although the blank line after a suppressed line is still relayed. */
  lemma ClientSeesNoUsageEvent(body: string, parse: Parser)
    requires UsageEventsSingle(NEW_READER, false, Lines(body), parse)
    ensures Interpret(Relayed(Lines(body), true, parse)) == WithoutUsage(Interpret(body), parse)
  {
    LinesAreCut(body);
    RelayHides(NEW_READER, NEW_READER, false, Lines(body), parse);
    PassThrough(body, parse);
  }
}
