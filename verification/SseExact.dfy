/** Exactly when the relay's client sees the upstream events minus the usage-only ones, for streams
    whose lines end in LF or CRLF. */
module SseExact {
  import opened Common
  import opened SseRelay

  // ---- A stream as a list of events ---------------------------------------------------------------

  /** What stands between two blank lines: the values of its data lines, and the type and id it will
      be dispatched with. */
  datatype Record = Record(values: seq<string>, kind: string, lastEventId: string)

  predicate Ended(line: string) {
    line != "" && line[|line| - 1] == '\n'
  }

  /** A line without its line end. */
  function TextOf(line: string): string
    requires Ended(line)
  {
    var n := |line| - 1;
    if n > 0 && line[n - 1] == '\r' then line[..n - 1] else line[..n]
  }

  /** The type and id read so far, after one more line. */
  function Header(h: Reader, line: string): Reader {
    if !Ended(line) then h
    else
      var text := TextOf(line);
      if text == "" then h.(kind := "") else if FieldName(text) == "data" then h else Feed(h, text)
  }

  /** The data values of the event being read, after one more line. */
  function Values(values: seq<string>, line: string): seq<string> {
    if !Ended(line) then values
    else
      var text := TextOf(line);
      if text == "" then [] else if FieldName(text) == "data" then values + [FieldValue(text)] else values
  }

  /** The event a line completes, if any. */
  function Completes(h: Reader, values: seq<string>, line: string): seq<Record> {
    if Ended(line) && TextOf(line) == "" then [RecordNow(h, values)] else []
  }

  function RecordNow(h: Reader, values: seq<string>): Record {
    Record(values, if h.kind == "" then "message" else h.kind, h.lastId)
  }

  /** The stream's events in order. */
  function Records(h: Reader, values: seq<string>, lines: seq<string>): seq<Record>
    decreases |lines|
  {
    if lines == [] then []
    else Completes(h, values, lines[0]) + Records(Header(h, lines[0]), Values(values, lines[0]), lines[1..])
  }

  function RecordsOf(body: string): seq<Record> {
    Records(NEW_READER, [], Lines(body))
  }

  /** The data buffer after these values. */
  function Buffer(values: seq<string>): string {
    if values == [] then "" else Buffer(values[..|values| - 1]) + values[|values| - 1] + "\n"
  }

  /** The values joined by line feeds. */
  function Whole(values: seq<string>): string {
    if values == [] then "" else Buffer(values)[..|Buffer(values)| - 1]
  }

  /** A data value the relay takes for the usage chunk it provoked. */
  predicate Looks(value: string, parse: Parser) {
    UsageOnly(TrimRight(value), parse)
  }

  function Kept(values: seq<string>, parse: Parser): seq<string> {
    if values == [] then []
    else
      var n := |values| - 1;
      Kept(values[..n], parse) + if Looks(values[n], parse) then [] else [values[n]]
  }

  /** The event is treated as promised: if it is usage-only all its data lines look so by themselves,
      else none does. */
  predicate Clean(values: seq<string>, parse: Parser) {
    if Looks(Whole(values), parse) then Kept(values, parse) == [] else Kept(values, parse) == values
  }

  function Through(values: seq<string>, hiding: bool, parse: Parser): seq<string> {
    if hiding then Kept(values, parse) else values
  }

  /** The events dispatched for the records, with or without the lines held back. */
  function Dispatched(records: seq<Record>, hiding: bool, parse: Parser): seq<Event> {
    if records == [] then []
    else DispatchedOne(records[0], hiding, parse) + Dispatched(records[1..], hiding, parse)
  }

  function DispatchedOne(r: Record, hiding: bool, parse: Parser): seq<Event> {
    var values := Through(r.values, hiding, parse);
    if values == [] then [] else [Event(r.kind, Whole(values), r.lastEventId)]
  }

  // ---- Every stream is read as its records ---------------------------------------------------------

  predicate Plain(text: string) {
    '\n' !in text && '\r' !in text
  }

  /** A line ended by LF or CRLF, or an unfinished one, without a carriage return elsewhere. */
  predicate Tidy(line: string) {
    if Ended(line) then Plain(TextOf(line)) else Plain(line)
  }

  /** Every carriage return is part of a CRLF. */
  ghost predicate LfOrCrLf(s: string) {
    forall i :: 0 <= i < |s| && s[i] == '\r' ==> i + 1 < |s| && s[i + 1] == '\n'
  }

  lemma LineEndFirst(s: string, i: nat)
    requires i < |s|
    ensures forall k :: i <= k < LineEnd(s, i) - 1 ==> s[k] != '\n'
    ensures s[LineEnd(s, i) - 1] == '\n' || LineEnd(s, i) == |s|
    decreases |s| - i
  {}

  lemma FirstIsTidy(s: string)
    requires s != "" && LfOrCrLf(s)
    ensures Tidy(s[..LineEnd(s, 0)]) && LfOrCrLf(s[LineEnd(s, 0)..])
  {
    var n := LineEnd(s, 0);
    LineEndFirst(s, 0);
    hide LineEnd;
    var line := s[..n];
    forall k | 0 <= k < n && s[k] == '\r' ensures k == n - 2 && s[n - 1] == '\n' {
      assert k + 1 < |s| && s[k + 1] == '\n';
    }
    forall i | 0 <= i < |s[n..]| && s[n..][i] == '\r' ensures i + 1 < |s[n..]| && s[n..][i + 1] == '\n' {
      assert s[n + i] == '\r';
    }
  }

  lemma {:induction false} LinesAreTidy(s: string)
    requires LfOrCrLf(s)
    ensures forall line <- Lines(s) :: Tidy(line)
    decreases |s|
  {
    if s != "" {
      FirstIsTidy(s);
      LinesAreTidy(s[LineEnd(s, 0)..]);
    }
  }

  lemma EndedReads(r: Reader, line: string)
    requires Ended(line) && Tidy(line)
    ensures FeedAll(r, SseLines(line, "")) == Feed(r, TextOf(line))
  {
    var text := TextOf(line);
    var eol := line[|text|..];
    assert eol == "\n" || eol == "\r\n";
    assert line == text + eol && "" + text == text;
    SseLinesOfPlain(text, eol, "");
    assert [text][1..] == [];
  }

  lemma {:induction false} UnendedReads(s: string, cur: string)
    requires Plain(s)
    ensures SseLines(s, cur) == []
    decreases |s|
  {
    if s != "" { UnendedReads(s[1..], cur + [s[0]]); }
  }

  lemma DataText(text: string)
    requires text != "" && FieldName(text) == "data"
    ensures text == "data" || (DATA <= text && FieldValue(text) == StripOneSpace(text[5..]))
  {
    assert text[..4] == "data";
    if ColonAt(text, 0) == |text| {
      assert text == text[..4];
    } else {
      assert text[..5] == text[..4] + [text[4]];
    }
  }

  /** The relay holds back exactly the data lines whose value looks usage-only. */
  lemma DataLineLooks(line: string, parse: Parser)
    requires Ended(line) && Tidy(line) && parse("").None?
    requires TextOf(line) != "" && FieldName(TextOf(line)) == "data"
    ensures Suppressed(line, true, parse) == Looks(FieldValue(TextOf(line)), parse)
  {
    var text := TextOf(line);
    var eol := line[|text|..];
    assert line == text + eol && (eol == "\n" || eol == "\r\n");
    DataText(text);
    if text == "data" {
      ShortDataLine(line, eol);
      assert ColonAt(text, 0) == 4 && FieldValue(text) == "";
    } else {
      var v := text[5..];
      assert text == DATA + v;
      assert DataLine(line, v);
      DataLinePayload(line, v);
    }
  }

  lemma ShortDataLine(line: string, eol: string)
    requires line == "data" + eol && (eol == "\n" || eol == "\r\n")
    ensures PayloadOf(line) == None
  {
    assert line[0] == 'd' && TrimLeft(line) == line;
    TrimRightEnd("data", eol);
    var d := "data";
    assert d[3] == 'a' && TrimRight(d) == d;
  }

  lemma DataPrefix(text: string)
    requires DATA <= text
    ensures text != "" && FieldName(text) == "data"
  {
    assert ColonAt(text, 0) == 4 by {
      assert text[0] == 'd' && text[1] == 'a' && text[2] == 't' && text[3] == 'a' && text[4] == ':';
    }
    assert text[..4] == DATA[..4] == "data";
  }

  lemma HeldBackStarts(line: string, parse: Parser)
    requires Ended(line) && Suppressed(line, true, parse)
    ensures IsSpace(line[0]) || DATA <= TextOf(line)
  {
    if !IsSpace(line[0]) {
      assert TrimLeft(line) == line;
      TrimRightPrefix(line);
      assert line[..5] == DATA;
    }
  }

  /** Any other line it holds back is one the client ignores. */
  lemma OtherLineIgnored(r: Reader, line: string, parse: Parser)
    requires Ended(line) && Tidy(line) && Suppressed(line, true, parse)
    requires TextOf(line) == "" || FieldName(TextOf(line)) != "data"
    ensures TextOf(line) != "" && Feed(r, TextOf(line)) == r
  {
    var text := TextOf(line);
    HeldBackStarts(line, parse);
    BlankIsKept(line);
    hide Suppressed, FieldName;
    if DATA <= text { DataPrefix(text); }
    SpaceFieldIgnored(r, text);
  }

  lemma {:induction false} TrimRightPrefix(s: string)
    ensures TrimRight(s) <= s
  {
    if s != "" && IsSpace(s[|s| - 1]) { TrimRightPrefix(s[..|s| - 1]); }
  }

  lemma BlankIsKept(line: string)
    requires Ended(line)
    ensures TextOf(line) == "" ==> PayloadOf(line) == None
  {
    assert TextOf(line) == "" ==> line == "\n" || line == "\r\n";
    assert TrimLeft("") == "" && TrimLeft("\n") == TrimLeft("");
    assert "\r\n"[1..] == "\n" && TrimLeft("\r\n") == TrimLeft("\n");
  }

  lemma SpaceFieldIgnored(r: Reader, text: string)
    ensures text != "" && IsSpace(text[0]) ==> Feed(r, text) == r
  {
    var name := FieldName(text);
    if name != "" && IsSpace(text[0]) {
      assert name[0] == text[0];
      assert name != "event" && name != "data" && name != "id";
    }
  }

  /** A reader that has read the fields h and, if lines are held back, only the kept ones of values. */
  ghost predicate Matches(r: Reader, h: Reader, values: seq<string>, hiding: bool, parse: Parser) {
    r.data == Buffer(Through(values, hiding, parse)) && r.kind == h.kind && r.lastId == h.lastId
  }

  lemma BufferFirst(values: seq<string>)
    ensures Buffer(values) == "" <==> values == []
    ensures values != [] ==> Buffer(values)[..|Buffer(values)| - 1] == Whole(values)
  {}

  lemma OneMoreValue(values: seq<string>, value: string, parse: Parser)
    ensures Buffer(values + [value]) == Buffer(values) + value + "\n"
    ensures Kept(values + [value], parse) == Kept(values, parse) + if Looks(value, parse) then [] else [value]
  {
    assert (values + [value])[..|values|] == values;
  }

  /** What reading a line, if it is relayed, makes of a reader. */
  function Received(r: Reader, line: string, hiding: bool, parse: Parser): Reader {
    if !Ended(line) || Suppressed(line, hiding, parse) then r else Feed(r, TextOf(line))
  }

  lemma BlankStep(r: Reader, h: Reader, values: seq<string>, line: string, hiding: bool, parse: Parser)
    requires Matches(r, h, values, hiding, parse) && Ended(line) && TextOf(line) == ""
    ensures var s := Received(r, line, hiding, parse);
            Matches(s, h.(kind := ""), [], hiding, parse) &&
            s.events == r.events + Dispatched(Completes(h, values, line), hiding, parse)
  {
    BlankIsKept(line);
    BufferFirst(Through(values, hiding, parse));
    BufferFirst([]);
    var records := Completes(h, values, line);
    assert records[1..] == [] && Dispatched([], hiding, parse) == [];
  }

  lemma FeedData(r: Reader, text: string)
    requires text != "" && FieldName(text) == "data"
    ensures Feed(r, text) == r.(data := r.data + FieldValue(text) + "\n")
  {}

  lemma DataStep(r: Reader, h: Reader, values: seq<string>, line: string, hiding: bool, parse: Parser)
    requires Matches(r, h, values, hiding, parse) && Ended(line) && Tidy(line) && parse("").None?
    requires TextOf(line) != "" && FieldName(TextOf(line)) == "data"
    ensures var s := Received(r, line, hiding, parse);
            Matches(s, h, values + [FieldValue(TextOf(line))], hiding, parse) && s.events == r.events
  {
    hide Feed, FieldName, FieldValue, Looks, Kept, Buffer, Tidy, TextOf, PayloadOf;
    DataLineLooks(line, parse);
    var value := FieldValue(TextOf(line));
    FeedData(r, TextOf(line));
    OneMoreValue(values, value, parse);
    OneMoreValue(Kept(values, parse), value, parse);
    assert Kept(values, parse) + [] == Kept(values, parse);
  }

  lemma OtherStep(r: Reader, h: Reader, values: seq<string>, line: string, hiding: bool, parse: Parser)
    requires Matches(r, h, values, hiding, parse) && Ended(line) && Tidy(line)
    requires TextOf(line) != "" && FieldName(TextOf(line)) != "data"
    ensures var s := Received(r, line, hiding, parse);
            Matches(s, Feed(h, TextOf(line)), values, hiding, parse) && s.events == r.events
  {
    if Suppressed(line, hiding, parse) {
      OtherLineIgnored(r, line, parse);
      OtherLineIgnored(h, line, parse);
    }
  }

  lemma LineStep(r: Reader, h: Reader, values: seq<string>, line: string, hiding: bool, parse: Parser)
    requires Matches(r, h, values, hiding, parse) && Tidy(line) && parse("").None?
    ensures var s := Received(r, line, hiding, parse);
            Matches(s, Header(h, line), Values(values, line), hiding, parse) &&
            s.events == r.events + Dispatched(Completes(h, values, line), hiding, parse)
  {
    hide Feed, FieldName, FieldValue, Matches, Tidy, Suppressed;
    if Ended(line) && TextOf(line) == "" {
      BlankStep(r, h, values, line, hiding, parse);
    } else {
      assert r.events + Dispatched([], hiding, parse) == r.events;
      if Ended(line) {
        if FieldName(TextOf(line)) == "data" {
          DataStep(r, h, values, line, hiding, parse);
        } else {
          OtherStep(r, h, values, line, hiding, parse);
        }
      }
    }
  }

  lemma RelayedFirstRead(r: Reader, lines: seq<string>, hiding: bool, parse: Parser)
    requires lines != [] && Cut(lines) && Tidy(lines[0])
    ensures FeedAll(r, SseLines(Relayed(lines, hiding, parse), "")) ==
            FeedAll(Received(r, lines[0], hiding, parse), SseLines(Relayed(lines[1..], hiding, parse), ""))
  {
    var line, text := lines[0], Relayed(lines[1..], hiding, parse);
    CutFirst(lines, hiding, parse);
    hide SseLines, Suppressed, Feed, Cut;
    if Suppressed(line, hiding, parse) {
      assert "" + text == text;
    } else {
      SplitFirst(r, line, text);
      if Ended(line) { EndedReads(r, line); } else { UnendedReads(line, ""); NothingRead(r); }
    }
  }

  lemma {:induction false} DispatchedSplit(a: seq<Record>, b: seq<Record>, hiding: bool, parse: Parser)
    ensures Dispatched(a + b, hiding, parse) == Dispatched(a, hiding, parse) + Dispatched(b, hiding, parse)
  {
    hide DispatchedOne;
    if a == [] {
      assert a + b == b;
    } else {
      assert (a + b)[1..] == a[1..] + b;
      DispatchedSplit(a[1..], b, hiding, parse);
      Associates(DispatchedOne(a[0], hiding, parse), Dispatched(a[1..], hiding, parse), Dispatched(b, hiding, parse));
    }
  }

  lemma NothingDispatched(r: Reader, h: Reader, values: seq<string>, hiding: bool, parse: Parser)
    ensures FeedAll(r, SseLines(Relayed([], hiding, parse), "")).events ==
            r.events + Dispatched(Records(h, values, []), hiding, parse)
  {
    assert Relayed([], hiding, parse) == "" && SseLines("", "") == [];
  }

  /** Reading the relayed text dispatches the records, less what is held back. */
  lemma {:induction false} ReadsRecords(r: Reader, h: Reader, values: seq<string>, lines: seq<string>, hiding: bool,
                                        parse: Parser)
    requires Cut(lines) && (forall line <- lines :: Tidy(line)) && parse("").None?
    requires Matches(r, h, values, hiding, parse)
    ensures FeedAll(r, SseLines(Relayed(lines, hiding, parse), "")).events ==
            r.events + Dispatched(Records(h, values, lines), hiding, parse)
    decreases |lines|
  {
    if lines == [] {
      NothingDispatched(r, h, values, hiding, parse);
    } else {
      var line, rest := lines[0], lines[1..];
      assert Tidy(line) && forall l <- rest :: l in lines;
      CutFirst(lines, hiding, parse);
      hide SseLines, FeedAll, Relayed, Cut, Matches, Tidy, Received, Dispatched, Header, Values, Completes;
      RelayedFirstRead(r, lines, hiding, parse);
      LineStep(r, h, values, line, hiding, parse);
      var h', values' := Header(h, line), Values(values, line);
      ReadsRecords(Received(r, line, hiding, parse), h', values', rest, hiding, parse);
      DispatchedSplit(Completes(h, values, line), Records(h', values', rest), hiding, parse);
      Associates(r.events, Dispatched(Completes(h, values, line), hiding, parse),
                 Dispatched(Records(h', values', rest), hiding, parse));
    }
  }

  lemma Associates<T>(a: seq<T>, b: seq<T>, c: seq<T>)
    ensures a + b + c == a + (b + c)
  {}

  // ---- Joined values can be told apart ---------------------------------------------------------------

  ghost predicate NoBreaks(values: seq<string>) {
    forall value <- values :: '\n' !in value
  }

  /** Where the text after the last line feed starts. */
  function LastStart(s: string): nat {
    if s == "" || s[|s| - 1] == '\n' then |s| else LastStart(s[..|s| - 1])
  }

  lemma {:induction false} LastStartAt(x: string, v: string)
    requires (x == "" || x[|x| - 1] == '\n') && '\n' !in v
    ensures LastStart(x + v) == |x|
    decreases |v|
  {
    if v == "" {
      assert x + v == x;
    } else {
      assert (x + v)[..|x + v| - 1] == x + v[..|v| - 1];
      LastStartAt(x, v[..|v| - 1]);
    }
  }

  lemma SameLast(x: string, v: string, y: string, w: string)
    requires (x == "" || x[|x| - 1] == '\n') && (y == "" || y[|y| - 1] == '\n')
    requires '\n' !in v && '\n' !in w && x + v + "\n" == y + w + "\n"
    ensures x == y && v == w
  {
    var l, r := x + v, y + w;
    assert l == (l + "\n")[..|l|] && r == (r + "\n")[..|r|];
    LastStartAt(x, v);
    LastStartAt(y, w);
    assert x == l[..|x|] && y == r[..|y|] && v == l[|x|..] && w == r[|y|..];
  }

  lemma BufferEnds(values: seq<string>)
    ensures Buffer(values) == "" || Buffer(values)[|Buffer(values)| - 1] == '\n'
  {}

  lemma {:induction false} BufferInjective(a: seq<string>, b: seq<string>)
    requires NoBreaks(a) && NoBreaks(b) && Buffer(a) == Buffer(b)
    ensures a == b
  {
    BufferFirst(a);
    BufferFirst(b);
    if a != [] && b != [] {
      var a', v, b', w := a[..|a| - 1], a[|a| - 1], b[..|b| - 1], b[|b| - 1];
      BufferEnds(a');
      BufferEnds(b');
      assert v in a && w in b;
      SameLast(Buffer(a'), v, Buffer(b'), w);
      BufferInjective(a', b');
      assert a == a' + [v] && b == b' + [w];
    }
  }

  lemma WholeInjective(a: seq<string>, b: seq<string>)
    requires NoBreaks(a) && NoBreaks(b) && a != [] && b != [] && Whole(a) == Whole(b)
    ensures a == b
  {
    BufferFirst(a);
    BufferFirst(b);
    BufferEnds(a);
    BufferEnds(b);
    assert Buffer(a) == Whole(a) + "\n" && Buffer(b) == Whole(b) + "\n";
    BufferInjective(a, b);
  }

  lemma {:induction false} KeptTwice(values: seq<string>, parse: Parser)
    ensures Kept(Kept(values, parse), parse) == Kept(values, parse)
    ensures forall value <- Kept(values, parse) :: value in values
  {
    if values != [] {
      var front, last := values[..|values| - 1], values[|values| - 1];
      KeptTwice(front, parse);
      OneMoreValue(Kept(front, parse), last, parse);
      assert Kept(front, parse) + [] == Kept(front, parse);
    }
  }

  // ---- Exactly when the promise holds ------------------------------------------------------------------

  /** The events a client should see. */
  function Promised(records: seq<Record>, parse: Parser): seq<Event> {
    if records == [] then [] else PromisedOne(records[0], parse) + Promised(records[1..], parse)
  }

  function PromisedOne(r: Record, parse: Parser): seq<Event> {
    if r.values == [] || Looks(Whole(r.values), parse) then [] else [Event(r.kind, Whole(r.values), r.lastEventId)]
  }

  lemma {:induction false} WithoutUsageSplit(a: seq<Event>, b: seq<Event>, parse: Parser)
    ensures WithoutUsage(a + b, parse) == WithoutUsage(a, parse) + WithoutUsage(b, parse)
  {
    if b == [] {
      assert a + b == a;
    } else {
      assert (a + b)[..|a + b| - 1] == a + b[..|b| - 1];
      WithoutUsageSplit(a, b[..|b| - 1], parse);
    }
  }

  lemma PromisedOneIsWithoutUsage(r: Record, parse: Parser)
    ensures PromisedOne(r, parse) == WithoutUsage(DispatchedOne(r, false, parse), parse)
  {
    var es := DispatchedOne(r, false, parse);
    if es != [] { assert es[..0] == []; }
  }

  lemma {:induction false} PromisedIsWithoutUsage(records: seq<Record>, parse: Parser)
    ensures Promised(records, parse) == WithoutUsage(Dispatched(records, false, parse), parse)
  {
    hide PromisedOne, DispatchedOne;
    if records != [] {
      PromisedOneIsWithoutUsage(records[0], parse);
      PromisedIsWithoutUsage(records[1..], parse);
      WithoutUsageSplit(DispatchedOne(records[0], false, parse), Dispatched(records[1..], false, parse), parse);
    }
  }

  lemma {:induction false} InDispatched(records: seq<Record>, e: Event, parse: Parser) returns (r: Record)
    requires e in Dispatched(records, true, parse)
    ensures r in records && Kept(r.values, parse) != [] && Whole(Kept(r.values, parse)) == e.data
  {
    r := records[0];
    if Kept(r.values, parse) == [] || e != Event(r.kind, Whole(Kept(r.values, parse)), r.lastEventId) {
      r := InDispatched(records[1..], e, parse);
    }
  }

  lemma {:induction false} InPromised(records: seq<Record>, r: Record, parse: Parser)
    requires r in records && r.values != [] && !Looks(Whole(r.values), parse)
    ensures Event(r.kind, Whole(r.values), r.lastEventId) in Promised(records, parse)
  {
    if r != records[0] {
      InPromised(records[1..], r, parse);
    }
  }

  ghost predicate AllClean(records: seq<Record>, parse: Parser) {
    forall r <- records :: Clean(r.values, parse)
  }

  ghost predicate AllNoBreaks(records: seq<Record>) {
    forall r <- records :: NoBreaks(r.values)
  }

  /** An event that is not usage-only and reaches the client at all reaches it whole. */
  lemma PromisedAreWhole(records: seq<Record>, r: Record, parse: Parser)
    requires AllNoBreaks(records) && Dispatched(records, true, parse) == Promised(records, parse)
    requires r in records && !Looks(Whole(r.values), parse)
    ensures Clean(r.values, parse)
  {
    if r.values != [] {
      InPromised(records, r, parse);
      var q := InDispatched(records, Event(r.kind, Whole(r.values), r.lastEventId), parse);
      var kept := Kept(q.values, parse);
      KeptTwice(q.values, parse);
      assert NoBreaks(q.values) && NoBreaks(r.values) && NoBreaks(kept);
      WholeInjective(kept, r.values);
    }
  }

  lemma {:induction false} Counts(records: seq<Record>, parse: Parser)
    requires forall r <- records :: !Looks(Whole(r.values), parse) ==> Clean(r.values, parse)
    ensures |Dispatched(records, true, parse)| >= |Promised(records, parse)|
    ensures |Dispatched(records, true, parse)| == |Promised(records, parse)| ==> AllClean(records, parse)
  {
    if records != [] {
      Counts(records[1..], parse);
      assert records == [records[0]] + records[1..];
    }
  }

  lemma {:induction false} CleanIsPromised(records: seq<Record>, parse: Parser)
    requires AllClean(records, parse)
    ensures Dispatched(records, true, parse) == Promised(records, parse)
  {
    if records != [] {
      CleanIsPromised(records[1..], parse);
      assert Clean(records[0].values, parse);
    }
  }

  lemma CleanExactly(records: seq<Record>, parse: Parser)
    requires AllNoBreaks(records)
    ensures Dispatched(records, true, parse) == WithoutUsage(Dispatched(records, false, parse), parse) <==>
              AllClean(records, parse)
  {
    PromisedIsWithoutUsage(records, parse);
    if AllClean(records, parse) {
      CleanIsPromised(records, parse);
    } else if Dispatched(records, true, parse) == Promised(records, parse) {
      forall r <- records | !Looks(Whole(r.values), parse) ensures Clean(r.values, parse) {
        PromisedAreWhole(records, r, parse);
      }
      Counts(records, parse);
    }
  }

  lemma ValuesNoBreaks(values: seq<string>, line: string)
    requires NoBreaks(values) && Tidy(line)
    ensures NoBreaks(Values(values, line))
  {
    if Ended(line) {
      var text := TextOf(line);
      var c := ColonAt(text, 0);
      if c < |text| { assert forall x <- text[c + 1..] :: x in text; }
    }
  }

  lemma {:induction false} RecordsNoBreaks(h: Reader, values: seq<string>, lines: seq<string>)
    requires NoBreaks(values) && forall line <- lines :: Tidy(line)
    ensures AllNoBreaks(Records(h, values, lines))
    decreases |lines|
  {
    if lines != [] {
      assert lines[0] in lines && forall l <- lines[1..] :: l in lines;
      ValuesNoBreaks(values, lines[0]);
      hide Tidy, NoBreaks, Values;
      RecordsNoBreaks(Header(h, lines[0]), Values(values, lines[0]), lines[1..]);
    }
  }

  /** Relaying dispatches the stream's records, upstream whole and to the client less what is held back. */
  lemma InterpretsRecords(body: string, hiding: bool, parse: Parser)
    requires LfOrCrLf(body) && parse("").None?
    ensures Interpret(Relayed(Lines(body), hiding, parse)) == Dispatched(RecordsOf(body), hiding, parse)
  {
    LinesAreTidy(body);
    LinesAreCut(body);
    ReadsRecords(NEW_READER, NEW_READER, [], Lines(body), hiding, parse);
  }

  /** The exact promise of the relay, for every stream whose lines end in LF or CRLF: the client
      dispatches exactly the upstream events minus the usage-only ones if and only if every event is
      clean, that is, all its data lines look usage-only by themselves where the event is usage-only,
      and none does elsewhere. */
  lemma SeesNoUsageEventExactly(body: string, parse: Parser)
    requires LfOrCrLf(body) && parse("").None?
    ensures Interpret(Relayed(Lines(body), true, parse)) == WithoutUsage(Interpret(body), parse) <==>
            AllClean(RecordsOf(body), parse)
  {
    InterpretsRecords(body, true, parse);
    InterpretsRecords(body, false, parse);
    PassThrough(body, parse);
    LinesAreTidy(body);
    RecordsNoBreaks(NEW_READER, [], Lines(body));
    CleanExactly(RecordsOf(body), parse);
  }

  // ---- The streams inference servers send ----------------------------------------------------------

  function LineFor(value: string): string {
    DATA + (" " + value) + "\n"
  }

  /** An event of one `data: ` line per value. */
  function Block(values: seq<string>): string {
    if values == [] then "\n" else LineFor(values[0]) + Block(values[1..])
  }

  function StreamOf(events: seq<seq<string>>): string {
    if events == [] then "" else Block(events[0]) + StreamOf(events[1..])
  }

  ghost predicate OneLiners(events: seq<seq<string>>) {
    forall values <- events :: AllPlain(values)
  }

  function Message(data: string): Event {
    Event("message", data, "")
  }

  lemma {:induction false} LineEndAt(s: string, i: nat, n: nat)
    requires i <= n < |s| && s[n] == '\n' && forall k :: i <= k < n ==> s[k] != '\n'
    ensures LineEnd(s, i) == n + 1
    decreases n - i
  {
    if i < n {
      LineEndAt(s, i + 1, n);
    }
  }

  lemma FirstLine(line: string, rest: string)
    requires Ended(line) && forall k :: 0 <= k < |line| - 1 ==> line[k] != '\n'
    ensures Lines(line + rest) == [line] + Lines(rest)
  {
    var s := line + rest;
    LineEndAt(s, 0, |line| - 1);
    assert s[..|line|] == line && s[|line|..] == rest;
  }

  lemma LineForIsLine(value: string)
    requires Plain(value)
    ensures Ended(LineFor(value)) && forall k :: 0 <= k < |LineFor(value)| - 1 ==> LineFor(value)[k] != '\n'
    ensures TextOf(LineFor(value)) == DATA + (" " + value)
  {
    var line := LineFor(value);
    forall k | 0 <= k < |line| - 1 ensures line[k] != '\n' && line[k] != '\r' {
      if k >= 6 {
        assert line[k] == value[k - 6];
      }
    }
    assert line[..|line| - 1] == DATA + (" " + value);
  }

  lemma LineForReads(h: Reader, values: seq<string>, value: string)
    requires Plain(value)
    ensures var line := LineFor(value);
            Header(h, line) == h && Values(values, line) == values + [value] && Completes(h, values, line) == []
  {
    LineForIsLine(value);
    var text := DATA + (" " + value);
    assert ColonAt(text, 0) == 4 by {
      assert text[0] == 'd' && text[1] == 'a' && text[2] == 't' && text[3] == 'a' && text[4] == ':';
    }
    assert text[..4] == "data" && text[5..] == " " + value && (" " + value)[1..] == value;
  }

  lemma DataLineRecords(h: Reader, values: seq<string>, value: string, rest: string)
    requires Plain(value)
    ensures Records(h, values, Lines(LineFor(value) + rest)) == Records(h, values + [value], Lines(rest))
  {
    LineForIsLine(value);
    LineForReads(h, values, value);
    var line := LineFor(value);
    hide LineFor, Lines, Header, Values, Completes;
    FirstLine(line, rest);
    assert ([line] + Lines(rest))[1..] == Lines(rest);
  }

  lemma BlankLineRecords(h: Reader, values: seq<string>, rest: string)
    ensures Records(h, values, Lines("\n" + rest)) ==
            [RecordNow(h, values)] + Records(h.(kind := ""), [], Lines(rest))
  {
    FirstLine("\n", rest);
    assert (["\n"] + Lines(rest))[1..] == Lines(rest);
    assert TextOf("\n") == "";
  }

  lemma BlockUnfolds(block: seq<string>, rest: string)
    requires block != []
    ensures Block(block) + rest == LineFor(block[0]) + (Block(block[1..]) + rest)
  {
    hide LineFor;
    Associates(LineFor(block[0]), Block(block[1..]), rest);
  }

  ghost predicate AllPlain(values: seq<string>) {
    forall value <- values :: Plain(value)
  }

  lemma AllPlainRest(values: seq<string>)
    requires values != [] && AllPlain(values)
    ensures Plain(values[0]) && AllPlain(values[1..])
  {
    assert values[0] in values && forall v <- values[1..] :: v in values;
  }

  ghost predicate ReadsBlock(h: Reader, values: seq<string>, text: string, rest: string, all: seq<string>) {
    Records(h, values, Lines(text)) == [RecordNow(h, all)] + Records(h.(kind := ""), [], Lines(rest))
  }

  lemma BlankReads(h: Reader, values: seq<string>, rest: string)
    ensures ReadsBlock(h, values, Block([]) + rest, rest, values)
  {
    BlankLineRecords(h, values, rest);
    hide Records, Lines;
  }

  lemma LineReads(h: Reader, values: seq<string>, value: string, text: string, rest: string, all: seq<string>)
    requires Plain(value) && ReadsBlock(h, values + [value], text, rest, all)
    ensures ReadsBlock(h, values, LineFor(value) + text, rest, all)
  {
    DataLineRecords(h, values, value, text);
    hide Records, Lines, LineFor, RecordNow;
  }

  lemma {:induction false} BlockReads(h: Reader, values: seq<string>, block: seq<string>, rest: string)
    requires AllPlain(block)
    ensures ReadsBlock(h, values, Block(block) + rest, rest, values + block)
    decreases |block|
  {
    hide ReadsBlock, LineFor, Plain;
    if block == [] {
      BlankReads(h, values, rest);
      assert values + block == values;
    } else {
      BlockUnfolds(block, rest);
      AllPlainRest(block);
      hide Block;
      BlockReads(h, values + [block[0]], block[1..], rest);
      assert values + [block[0]] + block[1..] == values + block;
      LineReads(h, values, block[0], Block(block[1..]) + rest, rest, values + block);
    }
  }

  function MessageRecords(events: seq<seq<string>>): seq<Record> {
    if events == [] then [] else [Record(events[0], "message", "")] + MessageRecords(events[1..])
  }

  lemma {:induction false} StreamRecords(events: seq<seq<string>>)
    requires OneLiners(events)
    ensures RecordsOf(StreamOf(events)) == MessageRecords(events)
  {
    if events != [] {
      assert events[0] in events && forall values <- events[1..] :: values in events;
      hide Records, Lines, Block, Plain;
      StreamRecords(events[1..]);
      BlockReads(NEW_READER, [], events[0], StreamOf(events[1..]));
      assert [] + events[0] == events[0];
    }
  }

  lemma {:induction false} BlockHasNoReturns(values: seq<string>)
    requires AllPlain(values)
    ensures '\r' !in Block(values)
  {
    if values != [] {
      var line := LineFor(values[0]);
      assert forall c <- line :: c in DATA || c == ' ' || c in values[0] || c == '\n';
      assert values[0] in values && Plain(values[0]);
      BlockHasNoReturns(values[1..]);
    }
  }

  lemma {:induction false} StreamHasNoReturns(events: seq<seq<string>>)
    requires OneLiners(events)
    ensures '\r' !in StreamOf(events)
  {
    if events != [] {
      assert events[0] in events && forall values <- events[1..] :: values in events;
      BlockHasNoReturns(events[0]);
      hide Block;
      StreamHasNoReturns(events[1..]);
    }
  }

  lemma {:induction false} MessagesClean(events: seq<seq<string>>, parse: Parser)
    ensures AllClean(MessageRecords(events), parse) <==> forall values <- events :: Clean(values, parse)
  {
    hide Clean;
    if events != [] {
      var first := Record(events[0], "message", "");
      MessagesClean(events[1..], parse);
      assert MessageRecords(events) == [first] + MessageRecords(events[1..]) && events == [events[0]] + events[1..];
    }
  }

  /** A server that sends LF-ended `data: ` lines, any number to an event: the client of an injected
      stream dispatches the upstream events minus the usage-only ones if and only if every event is
      clean. */
  lemma MultiLineStream(events: seq<seq<string>>, parse: Parser)
    requires OneLiners(events) && parse("").None?
    ensures var body := StreamOf(events);
            Interpret(Relayed(Lines(body), true, parse)) == WithoutUsage(Interpret(body), parse) <==>
            forall values <- events :: Clean(values, parse)
  {
    StreamHasNoReturns(events);
    StreamRecords(events);
    MessagesClean(events, parse);
    SeesNoUsageEventExactly(StreamOf(events), parse);
  }

  /** So it fails on every stream with an event that is not usage-only but has a line that looks so by
      itself: the relay cuts that line out of the event. */
  lemma SharedEventIsCut(events: seq<seq<string>>, parse: Parser, values: seq<string>, value: string)
    requires OneLiners(events) && parse("").None?
    requires values in events && value in values && Looks(value, parse) && !Looks(Whole(values), parse)
    ensures var body := StreamOf(events);
            Interpret(Relayed(Lines(body), true, parse)) != WithoutUsage(Interpret(body), parse)
  {
    MultiLineStream(events, parse);
    KeptOnly(values, parse);
  }

  lemma {:induction false} KeptOnly(values: seq<string>, parse: Parser)
    ensures forall value <- Kept(values, parse) :: !Looks(value, parse)
  {
    if values != [] { KeptOnly(values[..|values| - 1], parse); }
  }

  function Singly(payloads: seq<string>): seq<seq<string>> {
    seq(|payloads|, i requires 0 <= i < |payloads| => [payloads[i]])
  }

  lemma SingleIsClean(payload: string, parse: Parser)
    ensures Clean([payload], parse) && Whole([payload]) == payload
  {
    assert [payload][..0] == [] && Buffer([payload]) == payload + "\n";
    assert (payload + "\n")[..|payload + "\n"| - 1] == payload;
  }

  function Messages(payloads: seq<string>): seq<Event> {
    if payloads == [] then [] else [Message(payloads[0])] + Messages(payloads[1..])
  }

  lemma {:induction false} SinglyDispatches(payloads: seq<string>, parse: Parser)
    ensures Dispatched(MessageRecords(Singly(payloads)), false, parse) == Messages(payloads)
  {
    if payloads != [] {
      SingleIsClean(payloads[0], parse);
      hide Whole;
      assert Singly(payloads)[1..] == Singly(payloads[1..]);
      SinglyDispatches(payloads[1..], parse);
    }
  }

  // ---- Which payloads reach the client ---------------------------------------------------------------------

  /** A value looks usage-only if it decodes, and to no choices and some usage. */
  lemma LooksExactly(value: string, parse: Parser)
    ensures Looks(value, parse) <==>
              TrimRight(value) != "[DONE]" && exists u :: parse(TrimRight(value)) == Some(Chunk(0, Some(u)))
  {
    var p := TrimRight(value);
    if Looks(value, parse) { assert parse(p) == Some(Chunk(0, Some(parse(p).value.usage.value))); }
  }

  /** The payloads a client should see: all but the provoked chunks. */
  ghost function Visible(payloads: seq<string>, parse: Parser): seq<string> {
    if payloads == [] then []
    else (if Provoked(TrimRight(payloads[0]), parse) then [] else [payloads[0]]) + Visible(payloads[1..], parse)
  }

  lemma VisibleMessage(p: string, parse: Parser)
    ensures WithoutUsage([Message(p)], parse) == Messages(if Provoked(TrimRight(p), parse) then [] else [p])
  {
    LooksExactly(p, parse);
    assert UsageEvent(Message(p), parse) <==> Looks(p, parse);
    assert [Message(p)][..0] == [] && [p][1..] == [];
    hide UsageOnly, UsageIn;
    assert Messages([p]) == [Message(p)] + Messages([]);
  }

  lemma {:induction false} VisibleMessages(payloads: seq<string>, parse: Parser)
    ensures WithoutUsage(Messages(payloads), parse) == Messages(Visible(payloads, parse))
  {
    if payloads != [] {
      var p, rest := payloads[0], payloads[1..];
      VisibleMessages(rest, parse);
      VisibleMessage(p, parse);
      hide WithoutUsage, Message, Provoked;
      WithoutUsageSplit([Message(p)], Messages(rest), parse);
      MessagesSplit(if Provoked(TrimRight(p), parse) then [] else [p], Visible(rest, parse));
    } else {
      assert Messages([]) == [];
    }
  }

  lemma {:induction false} MessagesSplit(a: seq<string>, b: seq<string>)
    ensures Messages(a + b) == Messages(a) + Messages(b)
  {
    if a == [] {
      assert a + b == b;
    } else {
      assert (a + b)[1..] == a[1..] + b;
      MessagesSplit(a[1..], b);
    }
  }

  /** One data line per event always is clean: the client of an injected stream receives the payloads,
      in order, but for those that decode to usage without choices. */
  lemma StandardStream(payloads: seq<string>, parse: Parser)
    requires AllPlain(payloads) && parse("").None?
    ensures Interpret(Relayed(Lines(StreamOf(Singly(payloads))), true, parse)) == Messages(Visible(payloads, parse))
  {
    var events := Singly(payloads);
    forall values <- events ensures Clean(values, parse) && AllPlain(values) {
      var i :| 0 <= i < |payloads| && values == [payloads[i]];
      SingleIsClean(payloads[i], parse);
    }
    MultiLineStream(events, parse);
    StreamHasNoReturns(events);
    StreamRecords(events);
    SinglyDispatches(payloads, parse);
    InterpretsRecords(StreamOf(events), false, parse);
    PassThrough(StreamOf(events), parse);
    VisibleMessages(payloads, parse);
  }

  /** So a payload that does not decode, that ends the stream, that carries no usage or that has choices,
      with or without usage, is always dispatched. */
  lemma {:induction false} ContentReachesClient(payloads: seq<string>, p: string, parse: Parser)
    requires p in payloads
    requires var q := TrimRight(p);
             q == "[DONE]" || parse(q).None? || parse(q).value.usage.None? || parse(q).value.choices >= 1
    ensures Message(p) in Messages(Visible(payloads, parse))
  {
    var rest := payloads[1..];
    if payloads[0] == p {
      assert !Provoked(TrimRight(p), parse);
      assert Visible(payloads, parse) == [p] + Visible(rest, parse);
      MessagesSplit([p], Visible(rest, parse));
      assert Messages([p]) == [Message(p)] + Messages([p][1..]);
    } else {
      ContentReachesClient(rest, p, parse);
      MessagesSplit(if Provoked(TrimRight(payloads[0]), parse) then [] else [payloads[0]], Visible(rest, parse));
    }
  }

  /** The relayed text: the line of a provoked chunk is missing, its blank line is not. */
  ghost function RelayedText(payloads: seq<string>, injected: bool, parse: Parser): string {
    if payloads == [] then ""
    else
      (if injected && Provoked(TrimRight(payloads[0]), parse) then "" else LineFor(payloads[0])) +
      ("\n" + RelayedText(payloads[1..], injected, parse))
  }

  lemma LineHeldBack(payload: string, injected: bool, parse: Parser)
    requires Plain(payload)
    ensures Suppressed(LineFor(payload), injected, parse) <==> injected && Provoked(TrimRight(payload), parse)
  {
    PayloadOfLineFor(payload);
    LooksExactly(payload, parse);
  }

  lemma PayloadOfLineFor(payload: string)
    requires Plain(payload)
    ensures PayloadOf(LineFor(payload)) == Some(TrimRight(payload))
  {
    var v := " " + payload;
    assert LineFor(payload) == DATA + v + "\n" && v[1..] == payload;
    assert DataLine(LineFor(payload), v);
    DataLinePayload(LineFor(payload), v);
  }

  lemma SinglyLines(payloads: seq<string>)
    requires payloads != [] && AllPlain(payloads)
    ensures Lines(StreamOf(Singly(payloads))) ==
            [LineFor(payloads[0]), "\n"] + Lines(StreamOf(Singly(payloads[1..])))
  {
    var p, rest := payloads[0], StreamOf(Singly(payloads[1..]));
    AllPlainRest(payloads);
    LineForIsLine(p);
    assert Singly(payloads)[1..] == Singly(payloads[1..]) && [p][1..] == [];
    assert Block([p]) == LineFor(p) + Block([p][1..]);
    hide LineFor, Lines;
    assert Block([]) == "\n";
    assert StreamOf(Singly(payloads)) == Block([p]) + rest;
    Associates(LineFor(p), "\n", rest);
    TwoMoreLines(LineFor(p), "\n", rest);
  }

  lemma RelayedTwo(a: string, b: string, rest: seq<string>, injected: bool, parse: Parser)
    requires !Suppressed(b, injected, parse)
    ensures Relayed([a, b] + rest, injected, parse) ==
            (if Suppressed(a, injected, parse) then "" else a) + (b + Relayed(rest, injected, parse))
  {
    hide Suppressed;
    assert ([a, b] + rest)[1..] == [b] + rest && ([b] + rest)[1..] == rest;
  }

  /** Byte for byte: with injection exactly the lines of the provoked chunks are missing, without it none. */
  lemma {:induction false} RelayedStream(payloads: seq<string>, injected: bool, parse: Parser)
    requires AllPlain(payloads)
    ensures Relayed(Lines(StreamOf(Singly(payloads))), injected, parse) == RelayedText(payloads, injected, parse)
  {
    if payloads == [] {
      NoLines();
    } else {
      SinglyLines(payloads);
      AllPlainRest(payloads);
      RelayedStream(payloads[1..], injected, parse);
      LineHeldBack(payloads[0], injected, parse);
      BlankIsKept("\n");
      assert TextOf("\n") == "";
      hide LineFor, Lines, Relayed, PayloadOf, Provoked;
      RelayedTwo(LineFor(payloads[0]), "\n", Lines(StreamOf(Singly(payloads[1..]))), injected, parse);
    }
  }

  function SeenAll(usage: Tokens, lines: seq<string>, parse: Parser): Tokens
    decreases |lines|
  {
    if lines == [] then usage else SeenAll(Seen(usage, lines[0], parse), lines[1..], parse)
  }

  lemma {:induction false} SeenIsLast(done: seq<string>, lines: seq<string>, parse: Parser)
    ensures LastUsage(done + lines, parse) == SeenAll(LastUsage(done, parse), lines, parse)
    decreases |lines|
  {
    hide Seen;
    if lines == [] {
      assert done + lines == done;
    } else {
      LastUsageAppend(done, lines[0], parse);
      hide LastUsage;
      SeenIsLast(done + [lines[0]], lines[1..], parse);
      assert done + [lines[0]] + lines[1..] == done + lines;
    }
  }

  /** The usage after these payloads, read off what each decodes to. */
  function UsageAfter(usage: Tokens, payloads: seq<string>, parse: Parser): Tokens
    decreases |payloads|
  {
    if payloads == [] then usage else UsageAfter(Reported(TrimRight(payloads[0]), parse, usage), payloads[1..], parse)
  }

  lemma SeenTwo(usage: Tokens, line: string, rest: seq<string>, parse: Parser)
    requires PayloadOf("\n") == None
    ensures SeenAll(usage, [line, "\n"] + rest, parse) == SeenAll(Seen(usage, line, parse), rest, parse)
  {
    hide PayloadOf;
    assert ([line, "\n"] + rest)[1..] == ["\n"] + rest && (["\n"] + rest)[1..] == rest;
  }

  lemma {:induction false} SeenStream(usage: Tokens, payloads: seq<string>, parse: Parser)
    requires AllPlain(payloads)
    ensures SeenAll(usage, Lines(StreamOf(Singly(payloads))), parse) == UsageAfter(usage, payloads, parse)
    decreases |payloads|
  {
    if payloads == [] {
      NoLines();
    } else {
      var line, rest := LineFor(payloads[0]), Lines(StreamOf(Singly(payloads[1..])));
      SinglyLines(payloads);
      AllPlainRest(payloads);
      PayloadOfLineFor(payloads[0]);
      BlankIsKept("\n");
      assert TextOf("\n") == "";
      SeenStream(Reported(TrimRight(payloads[0]), parse, usage), payloads[1..], parse);
      assert Seen(usage, line, parse) == Reported(TrimRight(payloads[0]), parse, usage);
      hide Lines, StreamOf, Singly, LineFor, Reported, SeenAll, AllPlain;
      SeenTwo(usage, line, rest, parse);
    }
  }

  /** The payload ends the stream, does not decode, or carries no usage. */
  predicate Silent(payload: string, parse: Parser) {
    var q := TrimRight(payload);
    q == "[DONE]" || parse(q).None? || parse(q).value.usage.None?
  }

  lemma {:induction false} NoReports(usage: Tokens, payloads: seq<string>, parse: Parser)
    requires forall p <- payloads :: Silent(p, parse)
    ensures UsageAfter(usage, payloads, parse) == usage
    decreases |payloads|
  {
    if payloads != [] {
      assert payloads[0] in payloads && forall p <- payloads[1..] :: p in payloads;
      NoReports(usage, payloads[1..], parse);
    }
  }

  lemma {:induction false} ReportStands(usage: Tokens, payloads: seq<string>, i: nat, choices: nat, u: Tokens,
                                        parse: Parser)
    requires i < |payloads| && TrimRight(payloads[i]) != "[DONE]"
    requires parse(TrimRight(payloads[i])) == Some(Chunk(choices, Some(u)))
    requires forall p <- payloads[i + 1..] :: Silent(p, parse)
    ensures UsageAfter(usage, payloads, parse) == u
    decreases |payloads|
  {
    var next := Reported(TrimRight(payloads[0]), parse, usage);
    if i == 0 {
      NoReports(u, payloads[1..], parse);
    } else {
      assert payloads[1..][i..] == payloads[i + 1..];
      ReportStands(next, payloads[1..], i - 1, choices, u, parse);
    }
  }

  lemma LastUsageOfStream(payloads: seq<string>, parse: Parser)
    requires AllPlain(payloads)
    ensures LastUsage(Lines(StreamOf(Singly(payloads))), parse) == UsageAfter(Tokens(0, 0, 0), payloads, parse)
  {
    var lines := Lines(StreamOf(Singly(payloads)));
    SeenStream(NO_TOKENS, payloads, parse);
    assert [] + lines == lines && LastUsage([], parse) == NO_TOKENS;
    hide Lines, LastUsage, SeenAll, UsageAfter;
    SeenIsLast([], lines, parse);
  }

  /** The usage recorded for a stream is what its last payload that decodes to any usage reports, with or
      without choices; nothing if there is none. */
  lemma RecordedUsage(payloads: seq<string>, i: nat, choices: nat, u: Tokens, parse: Parser)
    requires AllPlain(payloads) && i < |payloads| && TrimRight(payloads[i]) != "[DONE]"
    requires parse(TrimRight(payloads[i])) == Some(Chunk(choices, Some(u)))
    requires forall p <- payloads[i + 1..] :: Silent(p, parse)
    ensures LastUsage(Lines(StreamOf(Singly(payloads))), parse) == u
  {
    LastUsageOfStream(payloads, parse);
    ReportStands(Tokens(0, 0, 0), payloads, i, choices, u, parse);
  }

  lemma NoRecordedUsage(payloads: seq<string>, parse: Parser)
    requires AllPlain(payloads) && forall p <- payloads :: Silent(p, parse)
    ensures LastUsage(Lines(StreamOf(Singly(payloads))), parse) == Tokens(0, 0, 0)
  {
    LastUsageOfStream(payloads, parse);
    NoReports(Tokens(0, 0, 0), payloads, parse);
  }

  // ---- Bare carriage returns -------------------------------------------------------------------------

  lemma {:induction false} ReturnEndsLine(v: string, w: string, cur: string)
    requires Plain(v) && w != "" && w[0] != '\n'
    ensures SseLines(v + ("\r" + w), cur) == [cur + v] + SseLines(w, "")
    decreases |v|
  {
    var s := v + ("\r" + w);
    if v == "" {
      assert s == "\r" + w && s[1..] == w && cur + v == cur;
    } else {
      assert s[1..] == v[1..] + ("\r" + w);
      ReturnEndsLine(v[1..], w, cur + [v[0]]);
      assert cur + [v[0]] + v[1..] == cur + v;
    }
  }

  /** A usage-only payload, with or without white space before it, that is no field of its own. */
  ghost predicate Detached(u: string, parse: Parser) {
    Plain(u) && u != "" && !IsSpace(u[|u| - 1]) && FieldName(u) !in {"event", "data", "id"} &&
    UsageOnly(u, parse) && UsageOnly("\r" + u, parse) && UsageOnly("\n" + u, parse) && parse("").None?
  }

  const EMPTY_DATA := "data: "

  /** One line for the relay, two for the client: an empty data field and an unknown one. */
  function Masked(u: string): string {
    EMPTY_DATA + ("\r" + (u + "\n"))
  }

  lemma MaskedSseLines(u: string)
    requires Plain(u) && u != ""
    ensures SseLines(Masked(u), "") == [EMPTY_DATA, u]
  {
    var w := u + "\n";
    assert w[0] == u[0];
    ReturnEndsLine(EMPTY_DATA, w, "");
    SseLinesOfPlain(u, "\n", "");
    hide SseLines;
    assert "" + EMPTY_DATA == EMPTY_DATA && "" + u == u;
  }

  lemma FeedTwo(r: Reader, a: string, b: string)
    ensures FeedAll(r, [a, b]) == Feed(Feed(r, a), b)
  {
    hide Feed;
    assert [a, b][1..] == [b] && [b][1..] == [];
    assert FeedAll(Feed(r, a), [b]) == FeedAll(Feed(Feed(r, a), b), [b][1..]);
  }

  lemma DetachedIgnored(r: Reader, u: string, parse: Parser)
    requires Detached(u, parse)
    ensures Feed(r, u) == r
  {}

  lemma MaskedReads(r: Reader, u: string, parse: Parser)
    requires Detached(u, parse)
    ensures FeedAll(r, SseLines(Masked(u), "")) == r.(data := r.data + "\n")
  {
    MaskedSseLines(u);
    EmptyDataReads(r);
    DetachedIgnored(Feed(r, EMPTY_DATA), u, parse);
    hide SseLines, FeedAll, Feed, Masked, Detached;
    FeedTwo(r, EMPTY_DATA, u);
  }

  lemma EmptyDataReads(r: Reader)
    ensures Feed(r, EMPTY_DATA) == r.(data := r.data + "\n")
  {
    var text := EMPTY_DATA;
    assert ColonAt(text, 0) == 4 by {
      assert text[0] == 'd' && text[1] == 'a' && text[2] == 't' && text[3] == 'a' && text[4] == ':';
    }
    assert text[..4] == "data" && text[5..] == " " && " "[1..] == "";
    assert r.data + "" + "\n" == r.data + "\n";
  }

  lemma MaskedPayload(u: string)
    requires u != "" && !IsSpace(u[|u| - 1])
    ensures PayloadOf(Masked(u)) == Some("\r" + u)
  {
    var line, kept := Masked(u), DATA + (" \r" + u);
    assert line == kept + "\n" && line[0] == 'd';
    TrimRightEnd(kept, "\n");
    assert TrimLeft(line) == line;
    assert kept[|kept| - 1] == u[|u| - 1];
    assert TrimRight(kept) == kept;
    hide TrimLeft, TrimRight;
    assert kept[5..] == " \r" + u && (" \r" + u)[1..] == "\r" + u;
  }

  lemma MaskedIsHeldBack(u: string, parse: Parser)
    requires Detached(u, parse)
    ensures Suppressed(Masked(u), true, parse)
  {
    MaskedPayload(u);
    hide PayloadOf, Masked, UsageOnly;
  }

  lemma MaskedEnds(u: string)
    requires Plain(u)
    ensures Ended(Masked(u)) && forall k :: 0 <= k < |Masked(u)| - 1 ==> Masked(u)[k] != '\n'
  {
    var line := Masked(u);
    forall k | 0 <= k < |line| - 1 ensures line[k] != '\n' {
      if k >= 7 { assert line[k] == u[k - 7]; }
    }
  }

  /** Two events, the first cut by mistake, the second reduced by mistake to what the first should have
      been. */
  function Cancelling(u: string): string {
    Masked(u) + ("\n" + Block(["", u]))
  }

  lemma BlockPair(u: string)
    ensures Block(["", u]) == LineFor("") + (LineFor(u) + "\n")
  {
    hide LineFor;
    var pair := ["", u];
    assert pair[1..] == [u] && [u][1..] == [];
    assert Block([u]) == LineFor(u) + Block([u][1..]) == LineFor(u) + "\n";
    assert Block(pair) == LineFor("") + Block(pair[1..]);
  }

  lemma TwoMoreLines(a: string, b: string, rest: string)
    requires Ended(a) && (forall k :: 0 <= k < |a| - 1 ==> a[k] != '\n')
    requires Ended(b) && (forall k :: 0 <= k < |b| - 1 ==> b[k] != '\n')
    ensures Lines(a + (b + rest)) == [a, b] + Lines(rest)
  {
    FirstLine(a, b + rest);
    FirstLine(b, rest);
    hide Lines;
    assert [a] + ([b] + Lines(rest)) == [a, b] + Lines(rest);
  }

  lemma LastBlank()
    ensures Lines("\n") == ["\n"]
  {
    FirstLine("\n", "");
    NoLines();
    assert "\n" + "" == "\n";
  }

  lemma CancellingLines(u: string)
    requires Plain(u)
    ensures Lines(Cancelling(u)) == [Masked(u), "\n", LineFor(""), LineFor(u), "\n"]
  {
    MaskedEnds(u);
    LineForIsLine("");
    LineForIsLine(u);
    BlockPair(u);
    LastBlank();
    hide Masked, LineFor, Lines, Block, Plain, TextOf;
    TwoMoreLines(Masked(u), "\n", Block(["", u]));
    TwoMoreLines(LineFor(""), LineFor(u), "\n");
  }

  /** Where a bare CR ends a line, mistakes can cancel: the client's list of events is as promised
      although the relay cut an event that is not usage-only and let part of a usage-only one through.
      No condition on single events is exact there. */
  lemma MistakesCancel(u: string, parse: Parser)
    requires Detached(u, parse)
    ensures var body := Cancelling(u);
            Interpret(body) == [Message(""), Message("\n" + u)] &&
            Interpret(Relayed(Lines(body), true, parse)) == [Message("")] == WithoutUsage(Interpret(body), parse)
  {
    CancellingUpstream(u, parse);
    CancellingClient(u, parse);
    var first, second := Message(""), Message("\n" + u);
    assert TrimRight("\n" + u) == "\n" + u && !UsageOnly(TrimRight(""), parse);
    assert [first, second][..1] == [first] && [first][..0] == [];
    assert WithoutUsage([first], parse) == [first];
  }

  lemma BlockIsTidy(values: seq<string>)
    requires AllPlain(values)
    ensures Cut(Lines(Block(values))) && forall line <- Lines(Block(values)) :: Tidy(line)
  {
    BlockHasNoReturns(values);
    LinesAreTidy(Block(values));
    LinesAreCut(Block(values));
  }

  lemma BlockRecord(h: Reader, values: seq<string>)
    requires AllPlain(values)
    ensures Records(h, [], Lines(Block(values))) == [RecordNow(h, values)]
  {
    BlockReads(h, [], values, "");
    NoLines();
    assert Block(values) + "" == Block(values) && [] + values == values;
    assert Records(h.(kind := ""), [], []) == [];
    hide Lines, Block, RecordNow;
  }

  lemma DispatchedAlone(r: Record, parse: Parser)
    ensures Dispatched([r], false, parse) == DispatchedOne(r, false, parse)
  {
    hide DispatchedOne;
    assert [r][1..] == [] && Dispatched([], false, parse) == [];
  }

  lemma BlockDispatches(r: Reader, values: seq<string>, parse: Parser)
    requires AllPlain(values) && parse("").None? && r.data == ""
    ensures FeedAll(r, SseLines(Block(values), "")).events ==
            r.events + DispatchedOne(RecordNow(r, values), false, parse)
  {
    BlockIsTidy(values);
    BlockRecord(r, values);
    BufferFirst([]);
    PassThrough(Block(values), parse);
    DispatchedAlone(RecordNow(r, values), parse);
    hide Cut, Tidy, Lines, Records, Dispatched, DispatchedOne, Relayed, FeedAll, SseLines, Block, AllPlain;
    ReadsRecords(r, r, [], Lines(Block(values)), false, parse);
  }

  lemma CancellingUpstream(u: string, parse: Parser)
    requires Detached(u, parse)
    ensures Interpret(Cancelling(u)) == [Message(""), Message("\n" + u)]
  {
    var r := NEW_READER.(data := "\n");
    var s := NEW_READER.(events := [Message("")]);
    MaskedReads(NEW_READER, u, parse);
    MaskedEnds(u);
    EndedReads(r, "\n");
    WholePair(u);
    hide SseLines, FeedAll, Masked, Block;
    SplitFirst(NEW_READER, Masked(u), "\n" + Block(["", u]));
    SplitFirst(r, "\n", Block(["", u]));
    assert Feed(r, TextOf("\n")) == s by { assert TextOf("\n") == "" && "\n"[..0] == ""; }
    BlockDispatches(s, ["", u], parse);
  }

  lemma WholePair(u: string)
    ensures Whole(["", u]) == "\n" + u && Whole([""]) == ""
  {
    assert ["", u][..1] == [""] && [""][..0] == [];
    assert Buffer([""]) == "\n" && Buffer(["", u]) == "\n" + u + "\n";
    assert ("\n" + u + "\n")[..|u| + 1] == "\n" + u;
  }

  lemma CancellingRelayed(u: string, parse: Parser)
    requires Detached(u, parse)
    ensures Relayed(Lines(Cancelling(u)), true, parse) == "\n" + Block([""])
  {
    CancellingLines(u);
    MaskedIsHeldBack(u, parse);
    LineForLooks("", parse);
    LineForLooks(u, parse);
    BlankIsKept("\n");
    assert TrimRight(u) == u && TextOf("\n") == "" && TrimRight("") == "";
    assert [""][1..] == [] && Block([]) == "\n" && Block([""]) == LineFor("") + Block([""][1..]);
    hide LineFor, Masked, Relayed, Lines, Cancelling, PayloadOf, Block;
    RelayedFive(Masked(u), "\n", LineFor(""), LineFor(u), parse);
  }

  lemma CancellingClient(u: string, parse: Parser)
    requires Detached(u, parse)
    ensures Interpret(Relayed(Lines(Cancelling(u)), true, parse)) == [Message("")]
  {
    CancellingRelayed(u, parse);
    WholePair(u);
    assert TextOf("\n") == "" && Feed(NEW_READER, "") == NEW_READER;
    EndedReads(NEW_READER, "\n");
    assert AllPlain([""]);
    hide SseLines, FeedAll, Block, Relayed, Lines;
    SplitFirst(NEW_READER, "\n", Block([""]));
    BlockDispatches(NEW_READER, [""], parse);
  }

  lemma LineForLooks(value: string, parse: Parser)
    requires Plain(value) && parse("").None?
    ensures Suppressed(LineFor(value), true, parse) == Looks(value, parse)
  {
    LineForIsLine(value);
    LineForReads(NEW_READER, [], value);
    assert Values([], LineFor(value)) == [value];
    var text := TextOf(LineFor(value));
    assert text[0] == 'd';
    DataPrefix(text);
    hide LineFor, FieldName, FieldValue, Suppressed;
    assert [FieldValue(text)] == [value];
    assert Tidy(LineFor(value)) by { assert Plain(text) by { PlainText(value); } }
    DataLineLooks(LineFor(value), parse);
  }

  lemma PlainText(value: string)
    requires Plain(value)
    ensures Plain(DATA + (" " + value))
  {}

  lemma RelayedFive(a: string, b: string, c: string, d: string, parse: Parser)
    requires Suppressed(a, true, parse) && !Suppressed(b, true, parse) && !Suppressed(c, true, parse) &&
             Suppressed(d, true, parse)
    ensures Relayed([a, b, c, d, b], true, parse) == b + (c + b)
  {
    hide Suppressed;
    assert [a, b, c, d, b][1..] == [b, c, d, b] && [b, c, d, b][1..] == [c, d, b] && [c, d, b][1..] == [d, b] &&
           [d, b][1..] == [b];
    assert [b][1..] == [] && Relayed([b], true, parse) == b + "" == b;
    assert Relayed([d, b], true, parse) == "" + b == b;
    assert Relayed([c, d, b], true, parse) == c + b;
  }
}
