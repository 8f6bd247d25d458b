/** The streaming multipart parser of src/infra/dahua/parsers/multipart.ts, a loose form of
    section 5.1.1 of RFC 2046. */
module Multipart {
  import opened Common
  import opened Text

  datatype Part = Part(headers: map<string, string>, body: string)

  // ---------------------------------------------------------------- one part

  function AddHeader(headers: map<string, string>, line: string): map<string, string> {
    var idx := IndexOf(line, ":", 0);
    if idx < 0 then headers
    else headers[Lower(Trim(line[..idx])) := Trim(line[idx + 1..])]
  }

  function HeadersOf(lines: seq<string>): map<string, string> {
    if lines == [] then map[] else AddHeader(HeadersOf(lines[..|lines| - 1]), lines[|lines| - 1])
  }

  /** Position and length of the blank line that ends the header block. */
  function BlankLine(text: string): Option<(nat, nat)> {
    var crlf := IndexOf(text, "\r\n\r\n", 0);
    if crlf >= 0 then Some((crlf, 4))
    else
      var lf := IndexOf(text, "\n\n", 0);
      if lf >= 0 then Some((lf, 2)) else None
  }

  /** The part between two boundary tokens, unless it is empty, a closing marker, or has no blank line. */
  function ParseRaw(raw: string): seq<Part> {
    var trimmed := Trim(raw);
    if trimmed == "" || trimmed == "--" then []
    else
      match BlankLine(trimmed)
      case None => []
      case Some((at, len)) =>
        [Part(HeadersOf(SplitLines(trimmed[..at])), Trim(trimmed[at + len..]))]
  }

  // ---------------------------------------------------------------- the stream

  datatype Drained = Drained(parts: seq<Part>, rest: string)

  /** What the buffer offers: no token, an unfinished part starting at a token, or a complete one. */
  datatype Turn = NoToken | Open(from: nat) | Complete(raw: string, next: nat)

  function NextTurn(token: string, buf: string): (t: Turn)
    requires token != ""
    ensures t.Open? ==> t.from <= |buf|
    ensures t.Complete? ==> |token| <= t.next <= |buf|
  {
    var first := IndexOf(buf, token, 0);
    if first < 0 then NoToken else TurnBetween(token, buf, first, IndexOf(buf, token, first + |token|))
  }

  /** The turn for a first token and, unless negative, the one after it. */
  function TurnBetween(token: string, buf: string, first: nat, second: int): Turn
    requires first <= |buf| && (second < 0 || first + |token| <= second <= |buf|)
  {
    if second < 0 then Open(first) else Complete(buf[first + |token|..second], second)
  }

  function Prepend(parts: seq<Part>, d: Drained): Drained { Drained(parts + d.parts, d.rest) }

  /** All parts complete in `buf`, as made by `read`, and what stays buffered. Each turn drops at least one token. */
  function Drain(read: string -> seq<Part>, token: string, buf: string): Drained
    requires token != ""
    decreases |buf|
  {
    match NextTurn(token, buf)
    case NoToken => Drained([], buf)
    case Open(from) => Drained([], buf[from..])
    case Complete(raw, next) =>
      Prepend(read(raw), Drain(read, token, buf[next..]))
  }

  class MultipartStreamParser {
    var buffer: string
    const boundaryToken: string

    constructor (boundary: string)
      ensures buffer == "" && boundaryToken == "--" + boundary
    {
      buffer := "";
      boundaryToken := "--" + boundary;
    }

    method Push(chunk: string) returns (parts: seq<Part>)
      requires boundaryToken != ""
      modifies this`buffer
      ensures Drained(parts, buffer) == Drain(ParseRaw, boundaryToken, old(buffer) + chunk)
    {
      buffer := buffer + chunk;
      parts := [];
      ghost var start := buffer;
      while true
        invariant Drain(ParseRaw, boundaryToken, start) == Prepend(parts, Drain(ParseRaw, boundaryToken, buffer))
        decreases |buffer|
      {
        var turn := FindTurn();
        match turn
        case NoToken =>
          break;
        case Open(from) =>
          OpenStaysOpen(ParseRaw, boundaryToken, buffer, from);
          if from > 0 {
            buffer := buffer[from..];
          }
          break;
        case Complete(raw, next) =>
          TurnDone(ParseRaw, boundaryToken, start, parts, buffer, raw, next);
          buffer := buffer[next..];
          var more := ReadPart(raw);
          parts := parts + more;
      }
    }

    /** The two searches at the head of the loop body. */
    method FindTurn() returns (turn: Turn)
      requires boundaryToken != ""
      ensures turn == NextTurn(boundaryToken, buffer)
    {
      var first := IndexOf(buffer, boundaryToken, 0);
      if first < 0 {
        return NoToken;
      }
      var second := IndexOf(buffer, boundaryToken, first + |boundaryToken|);
      turn := if second < 0 then Open(first) else Complete(buffer[first + |boundaryToken|..second], second);
    }

    /** The loop body after a complete part has been cut out: at most one part is pushed. */
    static method ReadPart(raw: string) returns (pushed: seq<Part>)
      ensures pushed == ParseRaw(raw)
    {
      var trimmed := Trim(raw);
      if trimmed == "" || trimmed == "--" {
        return [];
      }
      var split := BlankLine(trimmed);
      if split.None? {
        return [];
      }
      var (at, len) := split.value;
      var headers := ParseHeaders(trimmed[..at]);
      pushed := [Part(headers, Trim(trimmed[at + len..]))];
    }

    static method ParseHeaders(head: string) returns (headers: map<string, string>)
      ensures headers == HeadersOf(SplitLines(head))
    {
      var lines := SplitLines(head);
      headers := map[];
      for i := 0 to |lines|
        invariant headers == HeadersOf(lines[..i])
      {
        assert lines[..i + 1][..i] == lines[..i];
        headers := AddHeader(headers, lines[i]);
      }
      assert lines[..|lines|] == lines;
    }
  }

  lemma PrependTwice(a: seq<Part>, b: seq<Part>, d: Drained)
    ensures Prepend(a, Prepend(b, d)) == Prepend(a + b, d)
  {
    assert a + (b + d.parts) == a + b + d.parts;
  }

  /** Bookkeeping of one complete turn of `push`. */
  lemma TurnDone(read: string -> seq<Part>, token: string, start: string, parts: seq<Part>, buf: string, raw: string,
                 next: nat)
    requires token != "" && NextTurn(token, buf) == Complete(raw, next)
    requires Drain(read, token, start) == Prepend(parts, Drain(read, token, buf))
    ensures Drain(read, token, start) == Prepend(parts + read(raw), Drain(read, token, buf[next..]))
  {
    PrependTwice(parts, read(raw), Drain(read, token, buf[next..]));
  }

  lemma OpenStaysOpen(read: string -> seq<Part>, token: string, buf: string, first: nat)
    requires token != "" && NextTurn(token, buf) == Open(first)
    ensures NextTurn(token, buf[first..]) == Open(0)
    ensures Drain(read, token, buf) == Drained([], buf[first..]) == Drain(read, token, buf[first..])
  {
    CutAtToken(token, buf, first);
    assert buf[first..][0..] == buf[first..];
  }

  /** The turn is settled by the positions of the first two tokens. */
  lemma TurnAt(token: string, buf: string, first: nat, second: int)
    requires token != "" && IndexOf(buf, token, 0) == first && IndexOf(buf, token, first + |token|) == second
    ensures first <= |buf| && (second < 0 || first + |token| <= second <= |buf|)
    ensures NextTurn(token, buf) == TurnBetween(token, buf, first, second)
  {}

  /** A turn of a buffer, seen from its first token on. */
  function Shifted(t: Turn, first: nat): Turn {
    match t
    case NoToken => NoToken
    case Open(_) => Open(0)
    case Complete(raw, next) => Complete(raw, if next < first then 0 else next - first)
  }

  lemma CutTurn(token: string, buf: string, first: nat, second: int)
    requires first <= |buf| && (second < 0 || first + |token| <= second <= |buf|)
    ensures TurnBetween(token, buf[first..], 0, if second < 0 then -1 else second - first) ==
            Shifted(TurnBetween(token, buf, first, second), first)
  {
    if second >= 0 {
      assert buf[first..][|token|..second - first] == buf[first + |token|..second];
    }
  }

  /** Cutting a buffer at its first token shifts the turn and changes nothing else. */
  lemma CutAtToken(token: string, buf: string, first: nat)
    requires token != "" && IndexOf(buf, token, 0) == first <= |buf|
    ensures NextTurn(token, buf[first..]) == Shifted(NextTurn(token, buf), first)
    ensures var t := NextTurn(token, buf); !t.NoToken? && (t.Complete? ==> first <= t.next)
  {
    var second := IndexOf(buf, token, first + |token|);
    CutIndices(token, buf, first, second);
    TurnAt(token, buf, first, second);
    TurnAt(token, buf[first..], 0, if second < 0 then -1 else second - first);
    CutTurn(token, buf, first, second);
  }

  lemma CutIndices(token: string, buf: string, first: nat, second: int)
    requires token != "" && IndexOf(buf, token, 0) == first <= |buf| && IndexOf(buf, token, first + |token|) == second
    ensures IndexOf(buf[first..], token, 0) == 0
    ensures IndexOf(buf[first..], token, |token|) == if second < 0 then -1 else second - first
  {
    IndexOfAgain(buf, token);
    IndexOfInSuffix(buf, token, first, 0);
    IndexOfInSuffix(buf, token, first, |token|);
  }

  lemma OneTurnMore(read: string -> seq<Part>, token: string, buf: string, raw: string, next: nat)
    requires token != "" && NextTurn(token, buf) == Complete(raw, next)
    ensures Drain(read, token, buf) == Prepend(read(raw), Drain(read, token, buf[next..]))
  {}

  lemma CompleteTurnMoves(read: string -> seq<Part>, token: string, buf: string, first: nat, raw: string, next: nat)
    requires token != "" && first <= next <= |buf|
    requires NextTurn(token, buf) == Complete(raw, next) && NextTurn(token, buf[first..]) == Complete(raw, next - first)
    ensures Drain(read, token, buf[first..]) == Drain(read, token, buf)
  {
    OneTurnMore(read, token, buf, raw, next);
    OneTurnMore(read, token, buf[first..], raw, next - first);
    assert buf[first..][next - first..] == buf[next..];
  }

  lemma DropsLeadingText(read: string -> seq<Part>, token: string, buf: string, first: nat)
    requires token != "" && IndexOf(buf, token, 0) == first <= |buf|
    ensures Drain(read, token, buf[first..]) == Drain(read, token, buf)
  {
    CutAtToken(token, buf, first);
    match NextTurn(token, buf)
    case Open(_) => OpenStaysOpen(read, token, buf, first);
    case Complete(raw, next) => CompleteTurnMoves(read, token, buf, first, raw, next);
    case _ =>
  }

  // ---------------------------------------------------------------- chunk independence

  /** More text leaves a complete turn as it was. */
  lemma CompleteTurnExtends(token: string, b: string, a: string)
    requires token != "" && NextTurn(token, b).Complete?
    ensures NextTurn(token, b + a) == NextTurn(token, b)
  {
    var first := IndexOf(b, token, 0);
    var second := IndexOf(b, token, first + |token|);
    TurnAt(token, b, first, second);
    IndexOfExtends(b, a, token, 0);
    IndexOfExtends(b, a, token, first + |token|);
    TurnAt(token, b + a, first, second);
    SameTurn(token, b, a, first, second);
  }

  lemma SameTurn(token: string, b: string, a: string, first: nat, second: nat)
    requires first + |token| <= second <= |b|
    ensures TurnBetween(token, b + a, first, second) == TurnBetween(token, b, first, second)
  {
    assert (b + a)[first + |token|..second] == b[first + |token|..second];
  }

  lemma OpenTurnExtends(read: string -> seq<Part>, token: string, b: string, a: string)
    requires token != "" && NextTurn(token, b).Open?
    ensures Drain(read, token, b[NextTurn(token, b).from..] + a) == Drain(read, token, b + a)
  {
    var first := IndexOf(b, token, 0);
    IndexOfExtends(b, a, token, 0);
    assert (b + a)[first..] == b[first..] + a;
    DropsLeadingText(read, token, b + a, first);
  }

  lemma NoTurnSplits(read: string -> seq<Part>, token: string, b: string, a: string)
    requires token != "" && NextTurn(token, b).NoToken?
    ensures Drain(read, token, b + a) ==
              Prepend(Drain(read, token, b).parts, Drain(read, token, Drain(read, token, b).rest + a))
  {}

  lemma OpenTurnSplits(read: string -> seq<Part>, token: string, b: string, a: string)
    requires token != "" && NextTurn(token, b).Open?
    ensures Drain(read, token, b + a) ==
              Prepend(Drain(read, token, b).parts, Drain(read, token, Drain(read, token, b).rest + a))
  {
    OpenTurnExtends(read, token, b, a);
  }

  lemma CompleteTurnSplits(read: string -> seq<Part>, token: string, b: string, a: string, raw: string, next: nat)
    requires token != "" && NextTurn(token, b) == Complete(raw, next) && NextTurn(token, b + a) == Complete(raw, next)
    requires var later := Drain(read, token, b[next..]);
             Drain(read, token, b[next..] + a) == Prepend(later.parts, Drain(read, token, later.rest + a))
    ensures Drain(read, token, b + a) ==
              Prepend(Drain(read, token, b).parts, Drain(read, token, Drain(read, token, b).rest + a))
  {
    var later := Drain(read, token, b[next..]);
    assert (b + a)[next..] == b[next..] + a;
    OneTurnMore(read, token, b, raw, next);
    OneTurnMore(read, token, b + a, raw, next);
    PrependTwice(read(raw), later.parts, Drain(read, token, later.rest + a));
  }

  /** From any buffered text, pushing two chunks one after the other yields the same parts and the same
      buffer as pushing their concatenation. */
  lemma {:induction false} ChunksMayBeSplitAnywhere(read: string -> seq<Part>, token: string, b: string, a: string)
    requires token != ""
    ensures Drain(read, token, b + a) ==
              Prepend(Drain(read, token, b).parts, Drain(read, token, Drain(read, token, b).rest + a))
    decreases |b|
  {
    match NextTurn(token, b)
    case NoToken => NoTurnSplits(read, token, b, a);
    case Open(_) => OpenTurnSplits(read, token, b, a);
    case Complete(raw, next) =>
      CompleteTurnExtends(token, b, a);
      ChunksMayBeSplitAnywhere(read, token, b[next..], a);
      CompleteTurnSplits(read, token, b, a, raw, next);
  }

  function Concat(chunks: seq<string>): string {
    if chunks == [] then "" else Concat(chunks[..|chunks| - 1]) + chunks[|chunks| - 1]
  }

  /** What one push does to the buffered text. */
  function Pusher(token: string): string -> Drained
    requires token != ""
  {
    s => Drain(ParseRaw, token, s)
  }

  /** The parts of successive pushes together, and the final buffer. */
  function PushAll(push: string -> Drained, buf: string, chunks: seq<string>): Drained {
    if chunks == [] then Drained([], buf)
    else
      var before := PushAll(push, buf, chunks[..|chunks| - 1]);
      Prepend(before.parts, push(before.rest + chunks[|chunks| - 1]))
  }

  ghost predicate SplitsAnywhere(push: string -> Drained) {
    forall b, a :: push(b + a) == Prepend(push(b).parts, push(push(b).rest + a))
  }

  lemma {:induction false} PushesCompose(push: string -> Drained, buf: string, chunks: seq<string>)
    requires SplitsAnywhere(push) && chunks != []
    ensures PushAll(push, buf, chunks) == push(buf + Concat(chunks))
  {
    var init, last := chunks[..|chunks| - 1], chunks[|chunks| - 1];
    assert buf + (Concat(init) + last) == (buf + Concat(init)) + last;
    if init == [] {
      assert buf + Concat(init) == buf;
    } else {
      PushesCompose(push, buf, init);
    }
  }

  /** Any cutting of the input into at least one chunk gives what a single push of the whole gives. */
  lemma AnyChunkingEqualsOnePush(token: string, buf: string, chunks: seq<string>)
    requires token != "" && chunks != []
    ensures PushAll(Pusher(token), buf, chunks) == Drain(ParseRaw, token, buf + Concat(chunks))
  {
    var push := Pusher(token);
    forall b, a ensures push(b + a) == Prepend(push(b).parts, push(push(b).rest + a)) {
      ChunksMayBeSplitAnywhere(ParseRaw, token, b, a);
    }
    PushesCompose(push, buf, chunks);
  }
}
