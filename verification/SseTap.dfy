/** The usage tap on an event stream (src/gateway/sse_tap.rs): bytes arrive in arbitrary chunks, lines are cut
    at newlines, `data:` lines carry one JSON event each (WHATWG HTML, sections 9.2.5 and 9.2.6). */
module SseTap {
  import opened Prelude
  import opened Text
  import opened Cost
  import opened UsageJson
  import opened Utf8

  /** Soft cap on an unfinished line. */
  const MAX_BUFFER_BYTES := 1024 * 1024
  const NEWLINE: Byte := 10

  /** The library calls: lossy decoding of a line, and JSON parsing of a payload. */
  datatype Decoder = Decoder(lossy: seq<Byte> -> string, parse: string -> Option<Json>)

  // ----- one line, one event

  function DecodeLine(d: Decoder, line: seq<Byte>): Option<Json> {
    var text := Trim(d.lossy(line));
    if "data:" <= text then
      var payload := Trim(text[5..]);
      if payload == "" || payload == "[DONE]" then None else d.parse(payload)
    else None
  }

  /** An event framed as a `data:` line is decoded to its payload, however it is padded; a carriage return before the
      newline is padding. */
  lemma FramedEvent(d: Decoder, line: seq<Byte>, before: string, gap: string, payload: string, after: string)
    requires d.lossy(line) == before + ("data:" + gap + payload) + after
    requires Blank(before) && Blank(gap) && Blank(after) && Solid(payload) && payload != "[DONE]"
    ensures DecodeLine(d, line) == d.parse(payload)
  {
    var text := "data:" + gap + payload;
    assert text[0] == 'd' && text[|text| - 1] == payload[|payload| - 1];
    TrimAround(before, text, after);
    assert text[5..] == gap + payload == gap + payload + "";
    TrimAround(gap, payload, "");
  }

  /** Comments, other fields, blank lines and the end marker carry no event. */
  lemma UnframedLine(d: Decoder, line: seq<Byte>, before: string, text: string, after: string)
    requires d.lossy(line) == before + text + after && Blank(before) && Blank(after) && Solid(text)
    requires !("data:" <= text) || text == "data:" || text == "data:[DONE]" || text == "data: [DONE]"
    ensures DecodeLine(d, line) == None
  {
    TrimAround(before, text, after);
    TrimAround("", "[DONE]", "");
    TrimAround(" ", "[DONE]", "");
    assert "" + "[DONE]" + "" == "[DONE]" && " " + "[DONE]" + "" == " [DONE]";
    assert text == "data:[DONE]" ==> text[5..] == "[DONE]";
    assert text == "data: [DONE]" ==> text[5..] == " [DONE]";
    assert text == "data:" ==> text[5..] == "";
  }

  predicate IsType(e: Json, name: string) { e.Get("type") == Some(Str(name)) }

  predicate IsStart(e: Json) { IsType(e, "message_start") && e.Get("message").Some? }

  predicate IsDelta(e: Json) {
    && IsType(e, "message_delta") && e.Get("usage").Some?
    && e.Get("usage").value.Get("output_tokens").Some?
    && e.Get("usage").value.Get("output_tokens").value.AsInt().Some?
  }

  function DeltaOutput(e: Json): int
    requires IsDelta(e)
  {
    e.Get("usage").value.Get("output_tokens").value.AsInt().value
  }

  function EventUsage(p: Protocol, u: Usage, e: Json): Usage {
    match p
    case OpenAI => if HasUsage(e) then ExtractUsage(OpenAI, e) else u
    case Anthropic =>
      if IsStart(e) then ExtractUsage(Anthropic, e.Get("message").value).(output := u.output)
      else if IsDelta(e) then u.(output := DeltaOutput(e))
      else u
  }

  /** A `message_start` event sets the fields its message reports, but for the output. */
  lemma StartEvent(u: Usage, e: map<string, Json>, m: map<string, Json>, reported: Usage, usage: map<string, Json>)
    requires usage == usage["input_tokens" := Int(reported.input)]["output_tokens" := Int(reported.output)]
                           ["cache_read_input_tokens" := Int(reported.cacheRead)]
                           ["cache_creation_input_tokens" := Int(reported.cacheWrite)]
    requires m == m["usage" := Object(usage)] && e == e["type" := Str("message_start")]["message" := Object(m)]
    ensures EventUsage(Anthropic, u, Object(e)) == Usage(reported.input, u.output, reported.cacheRead, reported.cacheWrite)
  {
    assert m["usage"] == Object(usage) && e["type"] == Str("message_start") && e["message"] == Object(m);
    AnthropicReadsBack(reported, m, usage);
    assert m == m["usage" := Object(usage)];
  }

  /** A `message_delta` event sets the output. */
  lemma DeltaEvent(u: Usage, e: map<string, Json>, usage: map<string, Json>, n: int)
    requires usage == usage["output_tokens" := Int(n)] && e == e["type" := Str("message_delta")]["usage" := Object(usage)]
    ensures EventUsage(Anthropic, u, Object(e)) == u.(output := n)
  {
    assert usage["output_tokens"] == Int(n) && e["type"] == Str("message_delta") && e["usage"] == Object(usage);
  }

  /** Every other event changes nothing: another type, a start without a message, a delta without an integer count, or, for
      OpenAI, an event without a usage object. */
  lemma OtherEvent(u: Usage, e: map<string, Json>)
    ensures "type" !in e || e["type"] !in {Str("message_start"), Str("message_delta")} ==>
              EventUsage(Anthropic, u, Object(e)) == u
    ensures "type" in e && e["type"] == Str("message_start") && "message" !in e ==> EventUsage(Anthropic, u, Object(e)) == u
    ensures "type" in e && e["type"] == Str("message_delta")
            && ("usage" !in e || !e["usage"].Object? || NoInteger(e["usage"].fields, "output_tokens")) ==>
              EventUsage(Anthropic, u, Object(e)) == u
    ensures "usage" !in e || !e["usage"].Object? ==> EventUsage(OpenAI, u, Object(e)) == u
  {
  }

  /** An OpenAI event with a usage object replaces all fields. */
  lemma UsageEvent(u: Usage, e: map<string, Json>)
    requires "usage" in e && e["usage"].Object?
    ensures EventUsage(OpenAI, u, Object(e)) == ExtractUsage(OpenAI, Object(e))
  {
  }

  function LineUsage(p: Protocol, d: Decoder, u: Usage, line: seq<Byte>): Usage {
    match DecodeLine(d, line)
    case Some(e) => EventUsage(p, u, e)
    case None => u
  }

  // ----- cutting at newlines

  function NewlineAt(b: seq<Byte>): (i: nat)
    ensures i <= |b| && NEWLINE !in b[..i] && (i < |b| ==> b[i] == NEWLINE)
  {
    if b == [] || b[0] == NEWLINE then 0
    else
      var i := 1 + NewlineAt(b[1..]);
      assert b[..i] == [b[0]] + b[1..][..i - 1];
      i
  }

  function LinesOf(b: seq<Byte>): seq<seq<Byte>> {
    var i := NewlineAt(b);
    if i == |b| then [] else [b[..i]] + LinesOf(b[i + 1..])
  }

  function TailOf(b: seq<Byte>): (t: seq<Byte>)
    ensures NEWLINE !in t
  {
    var i := NewlineAt(b);
    if i == |b| then b else TailOf(b[i + 1..])
  }

  function Terminated(lines: seq<seq<Byte>>): seq<Byte> {
    if lines == [] then [] else lines[0] + [10] + Terminated(lines[1..])
  }

  lemma NewlineFirst(a: seq<Byte>, b: seq<Byte>)
    requires NEWLINE !in a
    ensures NewlineAt(a + [NEWLINE] + b) == |a|
    ensures NewlineAt(a) == |a|
  {
    var s := a + [NEWLINE] + b;
    var i := NewlineAt(s);
    assert s[|a|] == NEWLINE;
    assert forall j | 0 <= j < |a| :: s[j] == a[j];
    assert forall j | 0 <= j < i :: s[j] == s[..i][j];
  }

  lemma CutFirst(line: seq<Byte>, rest: seq<Byte>)
    requires NEWLINE !in line
    ensures LinesOf(line + [NEWLINE] + rest) == [line] + LinesOf(rest)
    ensures TailOf(line + [NEWLINE] + rest) == TailOf(rest)
  {
    var s := line + [NEWLINE] + rest;
    NewlineFirst(line, rest);
    assert s[..|line|] == line && s[|line| + 1..] == rest;
  }

  /** The bytes before, at and after the first newline. */
  lemma SplitFirst(b: seq<Byte>)
    requires NewlineAt(b) < |b|
    ensures var i := NewlineAt(b);
            && b == b[..i] + [NEWLINE] + b[i + 1..] && NEWLINE !in b[..i]
            && LinesOf(b) == [b[..i]] + LinesOf(b[i + 1..]) && TailOf(b) == TailOf(b[i + 1..])
  {
    Around(b, NewlineAt(b));
  }

  /** The cut loses nothing: the terminated lines and the tail are the bytes. */
  lemma {:induction false} CutJoins(b: seq<Byte>)
    ensures Terminated(LinesOf(b)) + TailOf(b) == b
  {
    var i := NewlineAt(b);
    if i < |b| {
      var rest := b[i + 1..];
      SplitFirst(b);
      CutJoins(rest);
      assert ([b[..i]] + LinesOf(rest))[1..] == LinesOf(rest);
      Regroup(b[..i] + [NEWLINE], Terminated(LinesOf(rest)), TailOf(rest));
    }
  }

  /** No piece holds a newline, so the cut is the only one. */
  lemma {:induction false} PiecesClean(b: seq<Byte>, k: nat)
    requires k < |LinesOf(b)|
    ensures 10 !in LinesOf(b)[k]
  {
    SplitFirst(b);
    if k > 0 {
      PiecesClean(b[NewlineAt(b) + 1..], k - 1);
    }
  }

  /** Cutting can stop anywhere and resume from the tail. */
  lemma {:induction false} CutResumes(a: seq<Byte>, b: seq<Byte>)
    ensures LinesOf(a + b) == LinesOf(a) + LinesOf(TailOf(a) + b)
    ensures TailOf(a + b) == TailOf(TailOf(a) + b)
  {
    var i := NewlineAt(a);
    if i < |a| {
      var line, rest := a[..i], a[i + 1..];
      SplitFirst(a);
      Regroup(line + [NEWLINE], rest, b);
      CutFirst(line, rest + b);
      CutResumes(rest, b);
      Regroup([line], LinesOf(rest), LinesOf(TailOf(rest) + b));
    }
  }

  // ----- the tap

  datatype TapState = TapState(buffer: seq<Byte>, usage: Usage, overflowed: bool)

  const FRESH := TapState([], ZERO_USAGE, false)

  function Fold(p: Protocol, d: Decoder, u: Usage, lines: seq<seq<Byte>>): Usage
    decreases lines
  {
    if lines == [] then u else Fold(p, d, LineUsage(p, d, u, lines[0]), lines[1..])
  }

  function FeedState(p: Protocol, d: Decoder, t: TapState, bytes: seq<Byte>): TapState {
    if t.overflowed then t
    else
      var all := t.buffer + bytes;
      var usage := Fold(p, d, t.usage, LinesOf(all));
      if |TailOf(all)| > MAX_BUFFER_BYTES then TapState([], usage, true) else TapState(TailOf(all), usage, false)
  }

  function FinishState(p: Protocol, d: Decoder, t: TapState): TapState {
    if t.buffer == [] then t else TapState([], LineUsage(p, d, t.usage, t.buffer), t.overflowed)
  }

  class UsageTap {
    const protocol: Protocol
    const decoder: Decoder
    var buffer: seq<Byte>
    var usage: Usage
    var overflowed: bool

    constructor (protocol: Protocol, decoder: Decoder)
      ensures this.protocol == protocol && this.decoder == decoder && State() == FRESH
    {
      this.protocol, this.decoder := protocol, decoder;
      buffer, usage, overflowed := [], ZERO_USAGE, false;
    }

    ghost function State(): TapState
      reads this
    {
      TapState(buffer, usage, overflowed)
    }

    method ConsumeEvent(e: Json)
      modifies this`usage
      ensures usage == EventUsage(protocol, old(usage), e)
    {
      match protocol
      case OpenAI =>
        if HasUsage(e) {
          usage := ExtractUsage(OpenAI, e);
        }
      case Anthropic =>
        if IsStart(e) {
          var partial := ExtractUsage(Anthropic, e.Get("message").value);
          usage := partial.(output := usage.output);
        } else if IsDelta(e) {
          usage := usage.(output := DeltaOutput(e));
        }
    }

    method ConsumeLine(line: seq<Byte>)
      modifies this`usage
      ensures usage == LineUsage(protocol, decoder, old(usage), line)
    {
      var text := Trim(decoder.lossy(line));
      if !("data:" <= text) {
        return;
      }
      var payload := Trim(text[5..]);
      if payload == "" || payload == "[DONE]" {
        return;
      }
      var event := decoder.parse(payload);
      if event.Some? {
        ConsumeEvent(event.value);
      }
    }

    method Feed(bytes: seq<Byte>)
      modifies this
      ensures State() == FeedState(protocol, decoder, old(State()), bytes)
    {
      if overflowed {
        return;
      }
      buffer := buffer + bytes;
      ghost var all := buffer;
      var pos := NewlineAt(buffer);
      while pos < |buffer|
        invariant pos == NewlineAt(buffer) && !overflowed
        invariant Fold(protocol, decoder, usage, LinesOf(buffer)) == Fold(protocol, decoder, old(usage), LinesOf(all))
        invariant TailOf(buffer) == TailOf(all)
        decreases |buffer|
      {
        var line := buffer[..pos];
        assert LinesOf(buffer)[1..] == LinesOf(buffer[pos + 1..]);
        buffer := buffer[pos + 1..];
        ConsumeLine(line);
        pos := NewlineAt(buffer);
      }
      if |buffer| > MAX_BUFFER_BYTES {
        buffer := [];
        overflowed := true;
      }
    }

    method Finish() returns (result: Usage)
      modifies this
      ensures State() == FinishState(protocol, decoder, old(State())) && result == usage
    {
      if buffer != [] {
        var tail := buffer;
        buffer := [];
        ConsumeLine(tail);
      }
      result := usage;
    }
  }

  // ----- chunking

  function FeedAll(p: Protocol, d: Decoder, chunks: seq<seq<Byte>>): TapState {
    if chunks == [] then FRESH
    else FeedState(p, d, FeedAll(p, d, chunks[..|chunks| - 1]), chunks[|chunks| - 1])
  }

  /** The stream parsed in one piece. */
  function OneShot(p: Protocol, d: Decoder, bytes: seq<Byte>): Usage {
    var u := Fold(p, d, ZERO_USAGE, LinesOf(bytes));
    if TailOf(bytes) == [] then u else LineUsage(p, d, u, TailOf(bytes))
  }

  /** What the tap reports after the chunks. */
  function Tapped(p: Protocol, d: Decoder, chunks: seq<seq<Byte>>): Usage {
    FinishState(p, d, FeedAll(p, d, chunks)).usage
  }

  lemma {:induction false} FoldAppend(p: Protocol, d: Decoder, u: Usage, a: seq<seq<Byte>>, b: seq<seq<Byte>>)
    ensures Fold(p, d, u, a + b) == Fold(p, d, Fold(p, d, u, a), b)
    decreases a
  {
    if a == [] {
      assert a + b == b;
    } else {
      assert (a + b)[1..] == a[1..] + b;
      FoldAppend(p, d, LineUsage(p, d, u, a[0]), a[1..], b);
    }
  }

  /** The first `k` chunks end in an unfinished line beyond the cap. */
  predicate Overlong(chunks: seq<seq<Byte>>, k: nat)
    requires k <= |chunks|
  {
    |TailOf(Flatten(chunks[..k]))| > 1_048_576
  }

  predicate NeverOverlong(chunks: seq<seq<Byte>>) { forall k | 0 <= k <= |chunks| :: !Overlong(chunks, k) }

  predicate FirstOverlong(chunks: seq<seq<Byte>>, k: nat) {
    k <= |chunks| && Overlong(chunks, k) && forall j | 0 <= j < k :: !Overlong(chunks, j)
  }

  lemma FeedOne(p: Protocol, d: Decoder, chunks: seq<seq<Byte>>)
    requires chunks != []
    requires var before := Flatten(chunks[..|chunks| - 1]);
             FeedAll(p, d, chunks[..|chunks| - 1]) == TapState(TailOf(before), Fold(p, d, ZERO_USAGE, LinesOf(before)), false)
    ensures var tail, usage := TailOf(Flatten(chunks)), Fold(p, d, ZERO_USAGE, LinesOf(Flatten(chunks)));
            FeedAll(p, d, chunks)
            == if |tail| > MAX_BUFFER_BYTES then TapState([], usage, true) else TapState(tail, usage, false)
  {
    var before, last := Flatten(chunks[..|chunks| - 1]), chunks[|chunks| - 1];
    FlattenSnoc(chunks);
    CutResumes(before, last);
    FoldAppend(p, d, ZERO_USAGE, LinesOf(before), LinesOf(TailOf(before) + last));
  }

  lemma OverlongPrefix(chunks: seq<seq<Byte>>, n: nat, k: nat)
    requires k <= n <= |chunks|
    ensures Overlong(chunks[..n], k) == Overlong(chunks, k)
  {
    assert chunks[..n][..k] == chunks[..k];
  }

  /** While no chunk boundary falls beyond the cap, the state is the cut of all bytes fed. */
  lemma {:induction false} TapAlive(p: Protocol, d: Decoder, chunks: seq<seq<Byte>>)
    requires NeverOverlong(chunks)
    ensures var all := Flatten(chunks);
            FeedAll(p, d, chunks) == TapState(TailOf(all), Fold(p, d, ZERO_USAGE, LinesOf(all)), false)
  {
    if chunks != [] {
      var n := |chunks| - 1;
      forall k | 0 <= k <= n
        ensures !Overlong(chunks[..n], k)
      {
        OverlongPrefix(chunks, n, k);
      }
      TapAlive(p, d, chunks[..n]);
      FeedOne(p, d, chunks);
      assert chunks[..n + 1] == chunks && !Overlong(chunks, n + 1);
    }
  }

  /** At the first boundary beyond the cap the tap gives up for good, and keeps the usage of the complete
      lines it has seen. */
  lemma {:induction false} TapStops(p: Protocol, d: Decoder, chunks: seq<seq<Byte>>, k: nat)
    requires FirstOverlong(chunks, k)
    ensures FeedAll(p, d, chunks) == TapState([], Fold(p, d, ZERO_USAGE, LinesOf(Flatten(chunks[..k]))), true)
    decreases |chunks|
  {
    var n := |chunks| - 1;
    if k <= n {
      forall j | 0 <= j <= k
        ensures Overlong(chunks[..n], j) == Overlong(chunks, j)
      {
        OverlongPrefix(chunks, n, j);
      }
      TapStops(p, d, chunks[..n], k);
      assert chunks[..n][..k] == chunks[..k];
    } else {
      assert chunks[..k] == chunks;
      forall j | 0 <= j <= n
        ensures !Overlong(chunks[..n], j)
      {
        OverlongPrefix(chunks, n, j);
      }
      TapAlive(p, d, chunks[..n]);
      FeedOne(p, d, chunks);
    }
  }

  lemma {:induction false} OverlongOrNot(chunks: seq<seq<Byte>>, k: nat)
    requires k <= |chunks|
    ensures (forall j | 0 <= j <= k :: !Overlong(chunks, j)) || exists j: nat :: FirstOverlong(chunks, j)
  {
    if k == 0 {
      assert Overlong(chunks, 0) ==> FirstOverlong(chunks, 0);
    } else {
      OverlongOrNot(chunks, k - 1);
      assert Overlong(chunks, k) && (forall j | 0 <= j < k :: !Overlong(chunks, j)) ==> FirstOverlong(chunks, k);
    }
  }

  /** The tap overflows exactly when some chunk boundary falls beyond the cap inside one line.  If none does, the
      chunking is invisible; otherwise the result is the fold over the lines completed by the first such boundary,
      and those lines are a prefix of the lines of the stream. */
  lemma TappedExactly(p: Protocol, d: Decoder, chunks: seq<seq<Byte>>)
    ensures !FeedAll(p, d, chunks).overflowed <==> NeverOverlong(chunks)
    ensures NeverOverlong(chunks) ==> Tapped(p, d, chunks) == OneShot(p, d, Flatten(chunks))
    ensures !NeverOverlong(chunks) ==>
              exists k: nat :: FirstOverlong(chunks, k)
                          && LinesOf(Flatten(chunks[..k])) <= LinesOf(Flatten(chunks))
                          && Tapped(p, d, chunks) == Fold(p, d, ZERO_USAGE, LinesOf(Flatten(chunks[..k])))
  {
    if NeverOverlong(chunks) {
      TapAlive(p, d, chunks);
    } else {
      OverlongOrNot(chunks, |chunks|);
      var k: nat :| FirstOverlong(chunks, k);
      TapStops(p, d, chunks, k);
      FlattenSplit(chunks, k);
      CutResumes(Flatten(chunks[..k]), Flatten(chunks[k..]));
    }
  }

  /** Overflow does not erase what complete lines reported: the usage of a line fed before an endless one stays. */
  lemma OverflowKeepsUsage(p: Protocol, d: Decoder, line: seq<Byte>, endless: seq<Byte>)
    requires 10 !in line && 10 !in endless && |endless| > 1_048_576
    ensures FeedAll(p, d, [line + [10], endless]).overflowed
    ensures Tapped(p, d, [line + [10], endless]) == LineUsage(p, d, ZERO_USAGE, line)
  {
    var first := line + [NEWLINE];
    var chunks := [first, endless];
    NewlineFirst(line, []);
    assert first + [] == first && [] + first == first && [] + endless == endless;
    NewlineFirst(endless, []);
    assert first[..|line|] == line && first[|line| + 1..] == [];
    var none: seq<seq<Byte>> := [];
    assert chunks[..1] == [first] && [first][..0] == none;
    assert LinesOf(first) == [line] && TailOf(first) == [];
    assert Fold(p, d, ZERO_USAGE, [line]) == LineUsage(p, d, ZERO_USAGE, line) by {
      assert [line][1..] == none;
    }
    assert FeedAll(p, d, none) == FRESH;
    assert FeedAll(p, d, [first]) == TapState([], LineUsage(p, d, ZERO_USAGE, line), false);
  }

  predicate LinesWithin(bytes: seq<Byte>, cap: nat) {
    (forall line | line in LinesOf(bytes) :: |line| <= cap) && |TailOf(bytes)| <= cap
  }

  lemma TailWithinLine(a: seq<Byte>, b: seq<Byte>, cap: nat)
    requires LinesWithin(a + b, cap)
    ensures |TailOf(a)| <= cap
  {
    var tail := TailOf(a);
    CutResumes(a, b);
    var i := NewlineAt(tail + b);
    if i < |tail + b| {
      assert LinesOf(tail + b)[0] == (tail + b)[..i];
      assert (tail + b)[..i] in LinesOf(a + b);
      assert forall j | 0 <= j < |tail| :: (tail + b)[j] == tail[j];
    }
  }

  /** If no line exceeds the cap, every split of the stream into chunks yields the one-shot parse. */
  lemma ChunkingInvisible(p: Protocol, d: Decoder, chunks: seq<seq<Byte>>)
    requires LinesWithin(Flatten(chunks), 1_048_576)
    ensures Tapped(p, d, chunks) == OneShot(p, d, Flatten(chunks))
  {
    forall k | 0 <= k <= |chunks|
      ensures !Overlong(chunks, k)
    {
      FlattenSplit(chunks, k);
      TailWithinLine(Flatten(chunks[..k]), Flatten(chunks[k..]), MAX_BUFFER_BYTES);
    }
    TappedExactly(p, d, chunks);
  }

  /** After every feed the buffer holds no newline and at most the cap. */
  lemma BufferBounded(p: Protocol, d: Decoder, chunks: seq<seq<Byte>>)
    ensures var t := FeedAll(p, d, chunks); 10 !in t.buffer && |t.buffer| <= 1_048_576
  {
  }

  // ----- the fold is last-writer-wins

  function EventsOf(d: Decoder, lines: seq<seq<Byte>>): seq<Json> {
    if lines == [] then []
    else
      var rest := EventsOf(d, lines[1..]);
      match DecodeLine(d, lines[0])
      case Some(e) => [e] + rest
      case None => rest
  }

  /** The last event with the property. */
  function LastWhere(es: seq<Json>, p: Json -> bool): (r: Option<Json>)
    ensures r.Some? ==> exists i :: 0 <= i < |es| && es[i] == r.value && p(es[i])
                                    && forall j | i < j < |es| :: !p(es[j])
    ensures r.None? ==> forall i | 0 <= i < |es| :: !p(es[i])
  {
    if es == [] then None
    else if p(es[|es| - 1]) then Some(es[|es| - 1])
    else
      var init := es[..|es| - 1];
      assert forall i | 0 <= i < |init| :: init[i] == es[i];
      LastWhere(init, p)
  }

  /** The usage of an event sequence, field by field: what the last event that sets the field says. */
  function LastWriter(p: Protocol, es: seq<Json>): Usage {
    match p
    case OpenAI =>
      (match LastWhere(es, HasUsage)
       case Some(e) => ExtractUsage(OpenAI, e)
       case None => ZERO_USAGE)
    case Anthropic =>
      var start := match LastWhere(es, IsStart)
                   case Some(e) => ExtractUsage(Anthropic, e.Get("message").value)
                   case None => ZERO_USAGE;
      var output := match LastWhere(es, IsDelta)
                    case Some(e) => DeltaOutput(e)
                    case None => 0;
      start.(output := output)
  }

  lemma {:induction false} EventsAppend(d: Decoder, a: seq<seq<Byte>>, b: seq<seq<Byte>>)
    ensures EventsOf(d, a + b) == EventsOf(d, a) + EventsOf(d, b)
    decreases a
  {
    if a == [] {
      assert a + b == b;
    } else {
      assert (a + b)[1..] == a[1..] + b;
      EventsAppend(d, a[1..], b);
    }
  }

  lemma LastWriterStep(p: Protocol, es: seq<Json>, e: Json)
    ensures LastWriter(p, es + [e]) == EventUsage(p, LastWriter(p, es), e)
  {
    assert (es + [e])[..|es|] == es;
  }

  /** Folding events left to right keeps, for every interleaving, what the last writer of each field said. */
  lemma {:induction false} FoldIsLastWriter(p: Protocol, d: Decoder, lines: seq<seq<Byte>>)
    ensures Fold(p, d, ZERO_USAGE, lines) == LastWriter(p, EventsOf(d, lines))
  {
    if lines != [] {
      var init, line := lines[..|lines| - 1], lines[|lines| - 1];
      assert lines == init + [line];
      FoldIsLastWriter(p, d, init);
      FoldAppend(p, d, ZERO_USAGE, init, [line]);
      EventsAppend(d, init, [line]);
      assert EventsOf(d, [line]) == match DecodeLine(d, line) case Some(e) => [e] case None => [];
      if DecodeLine(d, line).Some? {
        LastWriterStep(p, EventsOf(d, init), DecodeLine(d, line).value);
      } else {
        assert EventsOf(d, lines) == EventsOf(d, init);
      }
    }
  }

  /** The lines of a stream, its unfinished last line included. */
  function AllLines(bytes: seq<Byte>): seq<seq<Byte>> {
    LinesOf(bytes) + if TailOf(bytes) == [] then [] else [TailOf(bytes)]
  }

  /** The one-shot parse is the last-writer usage of the events of the stream. */
  lemma OneShotIsLastWriter(p: Protocol, d: Decoder, bytes: seq<Byte>)
    ensures OneShot(p, d, bytes) == LastWriter(p, EventsOf(d, AllLines(bytes)))
  {
    FoldIsLastWriter(p, d, AllLines(bytes));
    if TailOf(bytes) == [] {
      assert AllLines(bytes) == LinesOf(bytes);
    } else {
      FoldAppend(p, d, ZERO_USAGE, LinesOf(bytes), [TailOf(bytes)]);
    }
  }
}
