/** Token accounting on a streamed response: an observer keeps the last megabyte of
    the body and reads the last usage block from it. */
module Sse {
  import opened Common
  import Text

  const WINDOW: nat := 1_048_576
  const NEWLINE: byte := 10

  /** The usage object of a payload, as it is parsed; numbers absent there are 0. */
  datatype JsonUsage = JsonUsage(promptTokens: int, completionTokens: int, totalTokens: int,
                                 cacheReadTokens: int, cacheWriteTokens: int, promptCacheHit: int,
                                 inputTokens: int, outputTokens: int)

  datatype TokenUsage = TokenUsage(promptTokens: int, completionTokens: int, totalTokens: int,
                                   cacheReadTokens: int, cacheWriteTokens: int)

  function ToTokenUsage(u: JsonUsage): TokenUsage {
    TokenUsage(Int64(u.promptTokens + u.inputTokens), Int64(u.completionTokens + u.outputTokens), u.totalTokens,
               Int64(u.cacheReadTokens + u.promptCacheHit), u.cacheWriteTokens)
  }

  /** Decodes one JSON payload to its usage object, if it has one. */
  type Decoder = seq<byte> -> Option<JsonUsage>

  // ---- one line ----

  /** How many bytes the white space character at the start of s takes, or 0. */
  function SpaceAtStart(s: seq<byte>): (n: nat)
    ensures n <= |s|
  {
    if |s| >= 1 && s[0] in {9, 10, 11, 12, 13, 32} then 1
    else if |s| >= 2 && s[0] == 0xC2 && s[1] in {0x85, 0xA0} then 2
    else if |s| >= 3 && WideSpace(s[0], s[1], s[2]) then 3
    else 0
  }

  function SpaceAtEnd(s: seq<byte>): (n: nat)
    ensures n <= |s|
  {
    var k := |s|;
    if k >= 1 && s[k - 1] in {9, 10, 11, 12, 13, 32} then 1
    else if k >= 2 && s[k - 2] == 0xC2 && s[k - 1] in {0x85, 0xA0} then 2
    else if k >= 3 && WideSpace(s[k - 3], s[k - 2], s[k - 1]) then 3
    else 0
  }

  /** The three-byte encodings of Unicode white space. */
  predicate WideSpace(a: byte, b: byte, c: byte) {
    || (a == 0xE1 && b == 0x9A && c == 0x80)
    || (a == 0xE2 && b == 0x80 && (0x80 <= c <= 0x8A || c in {0xA8, 0xA9, 0xAF}))
    || (a == 0xE2 && b == 0x81 && c == 0x9F)
    || (a == 0xE3 && b == 0x80 && c == 0x80)
  }

  function TrimStart(s: seq<byte>): seq<byte> {
    if SpaceAtStart(s) == 0 then s else TrimStart(s[SpaceAtStart(s)..])
  }

  function TrimEnd(s: seq<byte>): seq<byte> {
    if SpaceAtEnd(s) == 0 then s else TrimEnd(s[..|s| - SpaceAtEnd(s)])
  }

  function TrimSpace(s: seq<byte>): seq<byte> {
    TrimEnd(TrimStart(s))
  }

  const DATA: seq<byte> := [100, 97, 116, 97, 58]      // data:
  const DONE: seq<byte> := [91, 68, 79, 78, 69, 93]    // [DONE]

  /** The usage a line carries, if it is a data line that carries any. */
  function LineUsage(decode: Decoder, line: seq<byte>): Option<JsonUsage> {
    var trimmed := TrimSpace(line);
    if !(DATA <= trimmed) then None
    else
      var payload := TrimSpace(trimmed[|DATA|..]);
      if payload == [] || payload == DONE then None else decode(payload)
  }

  // ---- the whole text ----

  predicate OneLine(s: seq<byte>) {
    forall i :: 0 <= i < |s| ==> s[i] != NEWLINE
  }

  function FirstNewline(s: seq<byte>): (n: nat)
    ensures n <= |s| && (forall i :: 0 <= i < n ==> s[i] != NEWLINE) && (n < |s| ==> s[n] == NEWLINE)
  {
    if s == [] || s[0] == NEWLINE then 0
    else
      assert forall i :: 0 <= i < |s| - 1 ==> s[1..][i] == s[i + 1];
      1 + FirstNewline(s[1..])
  }

  function Lines(s: seq<byte>): (ls: seq<seq<byte>>)
    ensures ls != []
    decreases |s|
  {
    var n := FirstNewline(s);
    if n == |s| then [s] else [s[..n]] + Lines(s[n + 1..])
  }

  /** The usage of the last line that carries one. */
  function LastUsage(decode: Decoder, lines: seq<seq<byte>>): Option<JsonUsage> {
    if lines == [] then None
    else if LineUsage(decode, Last(lines)).Some? then LineUsage(decode, Last(lines))
    else LastUsage(decode, Init(lines))
  }

  function Usage(decode: Decoder, text: seq<byte>): Option<JsonUsage> {
    LastUsage(decode, Lines(text))
  }

  lemma {:induction false} FirstNewlineAt(s: seq<byte>, n: nat)
    requires n <= |s| && (forall i :: 0 <= i < n ==> s[i] != NEWLINE) && (n < |s| ==> s[n] == NEWLINE)
    ensures FirstNewline(s) == n
  {
  }

  lemma {:induction false} LinesOfOne(s: seq<byte>)
    requires OneLine(s)
    ensures Lines(s) == [s]
  {
    FirstNewlineAt(s, |s|);
  }

  lemma {:induction false} LinesOfMore(a: seq<byte>, b: seq<byte>)
    requires OneLine(a)
    ensures Lines(a + [NEWLINE] + b) == [a] + Lines(b)
  {
    var s := a + [NEWLINE] + b;
    FirstNewlineAt(s, |a|);
    assert s[..|a|] == a && s[|a| + 1..] == b;
  }

  /** A text that is one line, or one line, a newline and more. */
  lemma {:induction false} SplitFirst(s: seq<byte>) returns (a: seq<byte>, more: bool, b: seq<byte>)
    ensures OneLine(a) && (if more then s == a + [NEWLINE] + b else s == a && b == [])
  {
    var n := FirstNewline(s);
    a, more := s[..n], n < |s|;
    b := if more then s[n + 1..] else [];
  }

  /** Lines in plain terms: they are what stands between the bytes 10. */
  lemma {:induction false} LinesMeaning(a: seq<byte>, b: seq<byte>)
    requires forall i :: 0 <= i < |a| ==> a[i] != 10
    ensures Lines(a) == [a]
    ensures Lines(a + [10] + b) == [a] + Lines(b)
  {
    LinesOfOne(a);
    LinesOfMore(a, b);
  }

  lemma {:induction false} LinesAfterOne(a: seq<byte>, b: seq<byte>)
    requires OneLine(a)
    ensures Lines(a + b) == [a + Lines(b)[0]] + Lines(b)[1..]
  {
    hide FirstNewline;
    var c, more, d := SplitFirst(b);
    if more {
      LinesOfMore(c, d);
      assert OneLine(a + c) && a + b == (a + c) + [NEWLINE] + d;
      LinesOfMore(a + c, d);
    } else {
      LinesOfOne(b);
      assert OneLine(a + b);
      LinesOfOne(a + b);
    }
  }

  /** The lines of two joined texts, given the lines of each. */
  function Join(p: seq<seq<byte>>, q: seq<seq<byte>>): seq<seq<byte>>
    requires p != [] && q != []
  {
    Init(p) + [Last(p) + q[0]] + q[1..]
  }

  lemma {:induction false} JoinCons(line: seq<byte>, p: seq<seq<byte>>, q: seq<seq<byte>>)
    requires p != [] && q != []
    ensures Join([line] + p, q) == [line] + Join(p, q)
  {
    assert Init([line] + p) == [line] + Init(p);
  }

  lemma {:induction false} JoinOne(line: seq<byte>, q: seq<seq<byte>>)
    requires q != []
    ensures Join([line], q) == [line + q[0]] + q[1..]
  {
    assert Init([line]) == [];
  }

  lemma {:induction false} Reassociate(c: seq<byte>, d: seq<byte>, b: seq<byte>)
    ensures c + [NEWLINE] + d + b == c + [NEWLINE] + (d + b)
  {
  }

  /** Joining two texts joins the last line of the one to the first line of the other. */
  lemma {:induction false} LinesAppend(a: seq<byte>, b: seq<byte>)
    ensures Lines(a + b) == Join(Lines(a), Lines(b))
    decreases |a|
  {
    var c, more, d := SplitFirst(a);
    if more {
      LinesAppend(d, b);
      LinesOfMore(c, d);
      LinesOfMore(c, d + b);
      JoinCons(c, Lines(d), Lines(b));
      Reassociate(c, d, b);
    } else {
      LinesAfterOne(a, b);
      LinesOfOne(a);
      JoinOne(a, Lines(b));
    }
  }

  lemma {:induction false} LastUsageOne(decode: Decoder, line: seq<byte>)
    ensures LastUsage(decode, [line]) == LineUsage(decode, line)
  {
    assert Last([line]) == line && Init([line]) == [];
    assert LastUsage(decode, Init([line])) == None;
  }

  lemma {:induction false} LastUsageAppend(decode: Decoder, p: seq<seq<byte>>, q: seq<seq<byte>>)
    ensures LastUsage(decode, p + q) ==
            if LastUsage(decode, q).Some? then LastUsage(decode, q) else LastUsage(decode, p)
  {
    if q == [] {
      assert p + q == p;
    } else {
      assert Init(p + q) == p + Init(q);
      if LineUsage(decode, Last(q)).None? {
        LastUsageAppend(decode, p, Init(q));
      }
    }
  }

  /** A text that is empty or ends with a newline ends with an empty line. */
  lemma {:induction false} LastLineEmpty(a: seq<byte>)
    requires a == [] || Last(a) == NEWLINE
    ensures Last(Lines(a)) == []
  {
    LinesOfOne([]);
    if a != [] {
      LinesAppend(Init(a), [NEWLINE]);
      assert a == Init(a) + [NEWLINE];
      LinesOfMore([], []);
      assert [NEWLINE] == [] + [NEWLINE] + [];
    }
  }

  lemma {:induction false} UsageAfterLineBreak(decode: Decoder, a: seq<byte>, b: seq<byte>)
    requires a == [] || Last(a) == NEWLINE
    ensures Usage(decode, a + b) ==
            if Usage(decode, b).Some? then Usage(decode, b) else LastUsage(decode, Init(Lines(a)))
  {
    LinesAppend(a, b);
    LastLineEmpty(a);
    assert [] + Lines(b)[0] == Lines(b)[0];
    assert [Lines(b)[0]] + Lines(b)[1..] == Lines(b);
    assert Lines(a + b) == Init(Lines(a)) + Lines(b);
    LastUsageAppend(decode, Init(Lines(a)), Lines(b));
  }

  /** text[start..end] is a whole line with usage, and no later line has any. */
  predicate IsLastUsageLine(decode: Decoder, text: seq<byte>, start: nat, end: nat) {
    && start <= end <= |text|
    && (start == 0 || text[start - 1] == NEWLINE)
    && OneLine(text[start..end])
    && (end == |text| || text[end] == NEWLINE)
    && LineUsage(decode, text[start..end]).Some?
    && (end < |text| ==> Usage(decode, text[end + 1..]).None?)
  }

  lemma {:induction false} UsageOfOne(decode: Decoder, line: seq<byte>)
    requires OneLine(line)
    ensures Usage(decode, line) == LineUsage(decode, line)
  {
    LinesOfOne(line);
    LastUsageOne(decode, line);
  }

  lemma {:induction false} UsageFromLine(decode: Decoder, text: seq<byte>, start: nat, end: nat)
    requires IsLastUsageLine(decode, text, start, end)
    ensures Usage(decode, text[start..]) == LineUsage(decode, text[start..end])
  {
    var line := text[start..end];
    if end == |text| {
      assert text[start..] == line;
      UsageOfOne(decode, line);
    } else {
      assert text[start..] == line + [NEWLINE] + text[end + 1..];
      LinesOfMore(line, text[end + 1..]);
      LastUsageAppend(decode, [line], Lines(text[end + 1..]));
      LastUsageOne(decode, line);
    }
  }

  /** The window may begin in the middle of a line: as long as the last line with usage
      lies wholly in it, the window and the whole text give the same answer. */
  lemma {:induction false} WindowSuffices(decode: Decoder, text: seq<byte>, cut: nat, start: nat, end: nat)
    requires IsLastUsageLine(decode, text, start, end) && cut <= start
    ensures Usage(decode, text[cut..]) == LineUsage(decode, text[start..end])
  {
    hide Usage, Lines, LastUsage, LineUsage;
    assert text[cut..start] + text[start..] == text[cut..];
    UsageFromLine(decode, text, start, end);
    UsageAfterLineBreak(decode, text[cut..start], text[start..]);
  }

  /** Exactly what a cut does: the lines after the first newline of the window decide
      alone if one of them has usage; otherwise the window reads its first, possibly
      cut line where the whole text reads that line complete, then all lines before. */
  lemma {:induction false} WindowExact(decode: Decoder, text: seq<byte>, cut: nat)
    requires cut <= |text|
    ensures var window, before := Lines(text[cut..]), Lines(text[..cut]);
            if LastUsage(decode, window[1..]).Some? then
              Usage(decode, text[cut..]) == Usage(decode, text) == LastUsage(decode, window[1..])
            else
              && Usage(decode, text[cut..]) == LineUsage(decode, window[0])
              && Usage(decode, text) == LastUsage(decode, Init(before) + [Last(before) + window[0]])
  {
    var window, before := Lines(text[cut..]), Lines(text[..cut]);
    assert text[..cut] + text[cut..] == text;
    LinesAppend(text[..cut], text[cut..]);
    assert [window[0]] + window[1..] == window;
    LastUsageAppend(decode, [window[0]], window[1..]);
    LastUsageAppend(decode, Init(before) + [Last(before) + window[0]], window[1..]);
    LastUsageOne(decode, window[0]);
  }

  // ---- the window ----

  function Tail(s: seq<byte>, n: nat): (t: seq<byte>)
  {
    if |s| > n then s[|s| - n..] else s
  }

  function Flatten(chunks: seq<seq<byte>>): seq<byte> {
    if chunks == [] then [] else Flatten(Init(chunks)) + Last(chunks)
  }

  lemma {:induction false} TailOfTail(s: seq<byte>, b: seq<byte>, n: nat)
    ensures Tail(Tail(s, n) + b, n) == Tail(s + b, n)
  {
  }

  /** The window in plain terms: up to 2^20 bytes all of it, and else the last 2^20. */
  lemma {:induction false} WindowMeaning(s: seq<byte>)
    ensures |s| <= 1_048_576 ==> Tail(s, WINDOW) == s
    ensures |s| > 1_048_576 ==> |Tail(s, WINDOW)| == 1_048_576 && s == s[..|s| - 1_048_576] + Tail(s, WINDOW)
  {
  }

  class SseUsageParser {
    var buf: seq<byte>

    constructor ()
      ensures buf == []
    {
      buf := [];
    }

    method Write(b: seq<byte>)
      modifies this
      ensures buf == Tail(old(buf) + b, WINDOW)
    {
      buf := buf + b;
      if |buf| > WINDOW {
        buf := buf[|buf| - WINDOW..];
      }
    }

    /** Scans the captured lines from the last to the first. */
    method GetUsage(decode: Decoder) returns (u: Option<TokenUsage>)
      ensures u == match Usage(decode, buf) case None => None case Some(j) => Some(ToTokenUsage(j))
    {
      var lines := Lines(buf);
      var i := |lines|;
      assert lines[..|lines|] == lines;
      while i > 0
        invariant 0 <= i <= |lines|
        invariant LastUsage(decode, lines) == LastUsage(decode, lines[..i])
      {
        assert Init(lines[..i]) == lines[..i - 1] && Last(lines[..i]) == lines[i - 1];
        i := i - 1;
        var j := LineUsage(decode, lines[i]);
        if j.Some? {
          return Some(ToTokenUsage(j.value));
        }
      }
      return None;
    }
  }

  /** Where the copy loop stops: after the chunk whose write to the client fails. */
  function Observed(chunks: seq<seq<byte>>, failAt: nat): (n: nat)
    ensures n <= |chunks|
  {
    if failAt < |chunks| && chunks[failAt] != [] then failAt + 1 else |chunks|
  }

  /** Copies the body to the client chunk by chunk, showing each to the observer first.
      The write of chunk failAt, if there is one, fails and ends the copy. */
  method CopyResponseWithHook(chunks: seq<seq<byte>>, failAt: nat, parser: SseUsageParser) returns (written: seq<byte>)
    requires parser.buf == []
    modifies parser
    ensures var n := Observed(chunks, failAt);
            && parser.buf == Tail(Flatten(chunks[..n]), WINDOW)
            && written == Flatten(if n == failAt + 1 then chunks[..failAt] else chunks)
  {
    written := [];
    for i := 0 to |chunks|
      invariant failAt < i ==> chunks[failAt] == []
      invariant parser.buf == Tail(written, WINDOW) && written == Flatten(chunks[..i])
    {
      assert Init(chunks[..i + 1]) == chunks[..i] && Last(chunks[..i + 1]) == chunks[i];
      TailOfTail(written, chunks[i], WINDOW);
      if |chunks[i]| > 0 {
        parser.Write(chunks[i]);
        if i == failAt {
          return;
        }
      }
      written := written + chunks[i];
    }
    assert chunks[..|chunks|] == chunks;
  }

  /** What the observer holds answers for the whole body whenever the last line with
      usage lies in the body's last megabyte. */
  lemma {:induction false} TailSuffices(decode: Decoder, body: seq<byte>, start: nat, end: nat)
    requires IsLastUsageLine(decode, body, start, end) && |body| <= start + WINDOW
    ensures Usage(decode, Tail(body, WINDOW)) == Usage(decode, body) == LineUsage(decode, body[start..end])
  {
    var cut := if |body| > WINDOW then |body| - WINDOW else 0;
    assert body[0..] == body;
    WindowSuffices(decode, body, cut, start, end);
    WindowSuffices(decode, body, 0, start, end);
  }

  /** Exactly when the observer and the whole body agree: the body fits the window, or some
      complete line of the window has usage, or its first line reads the same alone and with
      the part before the cut and the lines before that. */
  lemma {:induction false} TailAgreesIff(decode: Decoder, body: seq<byte>)
    ensures Usage(decode, Tail(body, WINDOW)) == Usage(decode, body) <==>
            |body| > WINDOW ==>
              var window, before := Lines(Tail(body, WINDOW)), Lines(body[..|body| - WINDOW]);
              || LastUsage(decode, window[1..]).Some?
              || LineUsage(decode, window[0]) == LastUsage(decode, Init(before) + [Last(before) + window[0]])
  {
    hide Lines, LastUsage, LineUsage;
    if |body| > WINDOW {
      WindowExact(decode, body, |body| - WINDOW);
    }
  }

  /** An object on one line. */
  predicate ObjectLine(payload: seq<byte>) {
    |payload| >= 2 && payload[0] == 123 && Last(payload) == 125 && OneLine(payload)
  }

  lemma {:induction false} NothingToTrim(s: seq<byte>)
    requires s != [] && s[0] in {100, 120, 123} && Last(s) == 125
    ensures TrimSpace(s) == s
  {
  }

  lemma {:induction false} DataLine(decode: Decoder, payload: seq<byte>)
    requires ObjectLine(payload)
    ensures OneLine(DATA + payload) && LineUsage(decode, DATA + payload) == decode(payload)
  {
    NothingToTrim(DATA + payload);
    NothingToTrim(payload);
    assert (DATA + payload)[|DATA|..] == payload;
    assert payload != DONE by {
      assert DONE[0] != payload[0];
    }
  }

  /** The character three bytes encode in UTF-8. */
  function ThreeByteChar(a: byte, b: byte, c: byte): int {
    (a as int - 0xE0) * 4096 + (b as int - 0x80) * 64 + (c as int - 0x80)
  }

  /** The white space that is trimmed is that of Unicode, by its encodings. */
  lemma {:induction false} WhiteSpaceIsUnicode(a: byte, b: byte, c: byte)
    ensures a < 128 ==> (SpaceAtStart([a]) == 1 <==> Text.IsSpace(a as char))
    ensures a == 0xC2 && 0x80 <= b < 0xC0 ==> (SpaceAtStart([a, b]) == 2 <==> Text.IsSpace(b as char))
    ensures 0xE1 <= a < 0xED && 0x80 <= b < 0xC0 && 0x80 <= c < 0xC0 ==>
              (WideSpace(a, b, c) <==> Text.IsSpace(ThreeByteChar(a, b, c) as char))
  {
  }

  /** A byte that neither starts nor ends white space in any encoding. */
  predicate Plain(b: byte) {
    32 < b < 127
  }

  lemma {:induction false} TrimsStart(s: seq<byte>, x: seq<byte>)
    requires (forall i :: 0 <= i < |s| ==> s[i] in {9, 10, 11, 12, 13, 32}) && x != [] && Plain(x[0])
    ensures TrimStart(s + x) == x
  {
    if s == [] {
      assert s + x == x;
    } else {
      assert (s + x)[1..] == s[1..] + x;
      TrimsStart(s[1..], x);
    }
  }

  lemma {:induction false} TrimsEnd(x: seq<byte>, s: seq<byte>)
    requires (forall i :: 0 <= i < |s| ==> s[i] in {9, 10, 11, 12, 13, 32}) && x != [] && Plain(Last(x))
    ensures TrimEnd(x + s) == x
  {
    if s == [] {
      assert x + s == x;
    } else {
      assert (x + s)[..|x + s| - 1] == x + s[..|s| - 1];
      TrimsEnd(x, s[..|s| - 1]);
    }
  }

  /** White space around a text that starts and ends with plain characters goes, whatever
      stands between them. */
  lemma {:induction false} Trims(s: seq<byte>, x: seq<byte>, t: seq<byte>)
    requires forall i :: 0 <= i < |s| ==> s[i] in {9, 10, 11, 12, 13, 32}
    requires forall i :: 0 <= i < |t| ==> t[i] in {9, 10, 11, 12, 13, 32}
    requires x != [] && Plain(x[0]) && Plain(Last(x))
    ensures TrimSpace(s + x + t) == x
  {
    assert s + x + t == s + (x + t);
    TrimsStart(s, x + t);
    TrimsEnd(x, t);
  }

  /** Lines of a stream in plain terms, with the bytes spelled out: data:, white space and a
      payload carry the usage of the payload, and none if the payload is [DONE]. */
  lemma {:induction false} DataLineMeaning(decode: Decoder, s: seq<byte>, payload: seq<byte>, t: seq<byte>)
    requires forall i :: 0 <= i < |s| ==> s[i] in {9, 11, 12, 13, 32}
    requires forall i :: 0 <= i < |t| ==> t[i] in {9, 11, 12, 13, 32}
    requires payload != [] && Plain(payload[0]) && Plain(Last(payload))
    ensures LineUsage(decode, [100, 97, 116, 97, 58] + s + payload + t) ==
            if payload == [91, 68, 79, 78, 69, 93] then None else decode(payload)
  {
    hide TrimSpace;
    var line := [100, 97, 116, 97, 58] + s + payload + t;
    var text := [100, 97, 116, 97, 58] + s + payload;
    assert line == [] + text + t && Last(text) == Last(payload);
    Trims([], text, t);
    assert text[5..] == s + payload + [];
    Trims(s, payload, []);
  }

  /** A line that begins with any other plain character carries none. */
  lemma {:induction false} OtherLineMeaning(decode: Decoder, line: seq<byte>)
    requires line != [] && Plain(line[0]) && line[0] != 100
    ensures LineUsage(decode, line) == None
  {
    EndTrimmed(line);
  }

  lemma {:induction false} EndTrimmed(s: seq<byte>)
    requires s != [] && Plain(s[0])
    ensures TrimSpace(s) != [] && TrimSpace(s)[0] == s[0]
  {
    TrimsStart([], s);
    assert [] + s == s;
    EndKeepsFirst(s);
  }

  lemma {:induction false} EndKeepsFirst(s: seq<byte>)
    requires s != [] && Plain(s[0])
    ensures TrimEnd(s) != [] && TrimEnd(s)[0] == s[0]
    decreases |s|
  {
    if SpaceAtEnd(s) != 0 {
      EndKeepsFirst(s[..|s| - SpaceAtEnd(s)]);
    }
  }

  lemma {:induction false} NoDataLine(decode: Decoder, payload: seq<byte>)
    requires ObjectLine(payload)
    ensures OneLine([120] + DATA + payload) && LineUsage(decode, [120] + DATA + payload) == None
  {
    NothingToTrim([120] + DATA + payload);
    assert ([120] + DATA + payload)[0] != DATA[0];
  }

  /** So the window can invent usage: a body of one line that is no data line, because of
      the one byte in front that the window has dropped. */
  lemma {:induction false} CutMayInvent(decode: Decoder, payload: seq<byte>)
    requires ObjectLine(payload) && |payload| == WINDOW - |DATA| && decode(payload).Some?
    ensures var body := [120] + DATA + payload;
            Usage(decode, body) == None && Usage(decode, Tail(body, WINDOW)) == decode(payload)
  {
    hide OneLine;
    var body := [120] + DATA + payload;
    DataLine(decode, payload);
    NoDataLine(decode, payload);
    assert Tail(body, WINDOW) == DATA + payload;
    UsageOfOne(decode, body);
    UsageOfOne(decode, DATA + payload);
  }

  /** For every way of splitting a body into chunks: the client gets the body as it is,
      and the usage recorded is that of the whole body whenever the last line with usage
      lies in its last megabyte. */
  method StreamAndAccount(chunks: seq<seq<byte>>, decode: Decoder, ghost start: nat, ghost end: nat)
    returns (written: seq<byte>, usage: Option<TokenUsage>)
    requires IsLastUsageLine(decode, Flatten(chunks), start, end) && |Flatten(chunks)| <= start + WINDOW
    ensures written == Flatten(chunks)
    ensures Usage(decode, written).Some? && usage == Some(ToTokenUsage(Usage(decode, written).value))
  {
    var parser := new SseUsageParser();
    written := CopyResponseWithHook(chunks, |chunks|, parser);
    assert chunks[..|chunks|] == chunks;
    TailSuffices(decode, Flatten(chunks), start, end);
    usage := parser.GetUsage(decode);
  }
}
