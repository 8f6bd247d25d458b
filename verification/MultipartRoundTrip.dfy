/** What the multipart parser reads back from a well-formed multipart text. */
module MultipartRoundTrip {
  import opened Common
  import opened Text
  import opened Multipart

  datatype Source = Source(headers: seq<(string, string)>, body: string)

  function HeaderLine(h: (string, string)): string { h.0 + ": " + h.1 }

  function PrintHeaders(hs: seq<(string, string)>): string {
    if hs == [] then "" else HeaderLine(hs[0]) + "\r\n" + PrintHeaders(hs[1..])
  }

  /** Header block, blank line, body. */
  function PartText(p: Source): string { PrintHeaders(p.headers) + "\r\n" + p.body }

  function RawText(p: Source): string { "\r\n" + PartText(p) + "\r\n" }

  /** Every part after its boundary line, then the closing boundary. */
  function Print(token: string, ps: seq<Source>): string {
    if ps == [] then token + "--" else token + RawText(ps[0]) + Print(token, ps[1..])
  }

  /** Header names are lower-cased; of equal names the last value stays. */
  function HeaderMap(hs: seq<(string, string)>): map<string, string> {
    if hs == [] then map[] else HeaderMap(hs[..|hs| - 1])[Lower(hs[|hs| - 1].0) := hs[|hs| - 1].1]
  }

  function Expected(p: Source): Part { Part(HeaderMap(p.headers), p.body) }

  predicate CleanHeader(h: (string, string)) {
    && h.0 != "" && Trimmed(h.0) && NoBreak(h.0) && (forall i :: 0 <= i < |h.0| ==> h.0[i] != ':')
    && Trimmed(h.1) && NoBreak(h.1)
  }

  ghost predicate Clean(token: string, p: Source) {
    && p.headers != [] && (forall i :: 0 <= i < |p.headers| ==> CleanHeader(p.headers[i]))
    && p.body != "" && Trimmed(p.body)
    && forall i :: !OccursAt(RawText(p), token, i)
  }

  // ---------------------------------------------------------------- the header block

  ghost predicate CleanHeaders(hs: seq<(string, string)>) {
    forall i :: 0 <= i < |hs| ==> CleanHeader(hs[i])
  }

  /** The text starts with a visible character, ends with a line break, and has no blank line. */
  ghost predicate IsBlock(block: string) {
    && |block| >= 4 && !IsSpace(block[0])
    && block[|block| - 2] == '\r' && block[|block| - 1] == '\n'
    && forall i :: 0 < i < |block| && block[i - 1] == '\n' ==> block[i] != '\r'
  }

  lemma LineIsBlock(line: string)
    requires |line| >= 2 && NoBreak(line) && !IsSpace(line[0])
    ensures IsBlock(line + "\r\n")
  {
    var block := line + "\r\n";
    assert forall i :: 0 <= i < |line| ==> block[i] == line[i];
    assert block[|line|] == '\r' && block[|line| + 1] == '\n';
  }

  lemma LineBeforeBlock(line: string, rest: string)
    requires |line| >= 2 && NoBreak(line) && !IsSpace(line[0]) && IsBlock(rest)
    ensures IsBlock(line + "\r\n" + rest)
  {
    var first, block := line + "\r\n", line + "\r\n" + rest;
    LineIsBlock(line);
    assert forall i :: 0 <= i < |first| ==> block[i] == first[i];
    assert forall i :: 0 <= i < |rest| ==> block[|first| + i] == rest[i];
    forall i | 0 < i < |block| && block[i - 1] == '\n' ensures block[i] != '\r' {
      if i > |first| {
        assert block[i] == rest[i - |first|] && block[i - 1] == rest[i - |first| - 1];
      }
    }
  }

  /** A printed header block is one. */
  lemma {:induction false} HeaderBlockShape(hs: seq<(string, string)>)
    requires hs != [] && CleanHeaders(hs)
    ensures IsBlock(PrintHeaders(hs))
  {
    var line := HeaderLine(hs[0]);
    LineIsUnbroken(hs[0]);
    assert CleanHeader(hs[0]) && line[0] == hs[0].0[0];
    if hs[1..] == [] {
      LineIsBlock(line);
      assert PrintHeaders(hs) == line + "\r\n" + "" == line + "\r\n";
    } else {
      HeaderBlockShape(hs[1..]);
      LineBeforeBlock(line, PrintHeaders(hs[1..]));
    }
  }

  lemma LineIsUnbroken(h: (string, string))
    requires CleanHeader(h)
    ensures NoBreak(HeaderLine(h)) && |HeaderLine(h)| == |h.0| + 2 + |h.1|
  {
    var line := HeaderLine(h);
    forall i | 0 <= i < |line| ensures line[i] != '\r' && line[i] != '\n' {
      if i < |h.0| { assert line[i] == h.0[i]; }
      else if i >= |h.0| + 2 { assert line[i] == h.1[i - |h.0| - 2]; }
    }
  }

  function Lines(hs: seq<(string, string)>): seq<string> {
    seq(|hs|, i requires 0 <= i < |hs| => HeaderLine(hs[i]))
  }

  /** The header block without its last line break. */
  function Head(hs: seq<(string, string)>): string
    requires hs != []
  {
    if |hs| == 1 then HeaderLine(hs[0]) else HeaderLine(hs[0]) + "\r\n" + Head(hs[1..])
  }

  lemma {:induction false} HeadIsBlock(hs: seq<(string, string)>)
    requires hs != []
    ensures PrintHeaders(hs) == Head(hs) + "\r\n"
  {
    if |hs| == 1 {
      assert PrintHeaders(hs[1..]) == "";
      assert PrintHeaders(hs) == HeaderLine(hs[0]) + "\r\n" + "";
    } else {
      HeadIsBlock(hs[1..]);
      assert HeaderLine(hs[0]) + "\r\n" + (Head(hs[1..]) + "\r\n") ==
          HeaderLine(hs[0]) + "\r\n" + Head(hs[1..]) + "\r\n";
    }
  }

  /** A header line is split off in front of any text, and alone is one line. */
  ghost predicate SplitsOff(split: string -> seq<string>, h: (string, string)) {
    && split(HeaderLine(h)) == [HeaderLine(h)]
    && forall more :: split(HeaderLine(h) + "\r\n" + more) == [HeaderLine(h)] + split(more)
  }

  lemma LineSplitsOff(h: (string, string))
    requires CleanHeader(h)
    ensures SplitsOff(SplitLines, h)
  {
    LineIsUnbroken(h);
    SplitLastLine(HeaderLine(h));
    forall more ensures SplitLines(HeaderLine(h) + "\r\n" + more) == [HeaderLine(h)] + SplitLines(more) {
      SplitFirstLine(HeaderLine(h), more);
    }
  }

  lemma {:induction false} HeadSplits(split: string -> seq<string>, hs: seq<(string, string)>)
    requires hs != [] && forall i :: 0 <= i < |hs| ==> SplitsOff(split, hs[i])
    ensures split(Head(hs)) == Lines(hs)
  {
    if |hs| == 1 {
      assert Lines(hs) == [HeaderLine(hs[0])];
    } else {
      HeadSplits(split, hs[1..]);
      assert split(HeaderLine(hs[0]) + "\r\n" + Head(hs[1..])) == [HeaderLine(hs[0])] + split(Head(hs[1..]));
      assert Lines(hs) == [HeaderLine(hs[0])] + Lines(hs[1..]);
    }
  }

  lemma SplitGivesLines(hs: seq<(string, string)>)
    requires hs != [] && CleanHeaders(hs)
    ensures SplitLines(Head(hs)) == Lines(hs)
  {
    forall i | 0 <= i < |hs| ensures SplitsOff(SplitLines, hs[i]) {
      LineSplitsOff(hs[i]);
    }
    HeadSplits(SplitLines, hs);
  }

  lemma HeaderReadBack(m: map<string, string>, h: (string, string))
    requires CleanHeader(h)
    ensures AddHeader(m, HeaderLine(h)) == m[Lower(h.0) := h.1]
  {
    var line := HeaderLine(h);
    assert line[|h.0|] == ':' && forall i :: 0 <= i < |h.0| ==> line[i] == h.0[i];
    assert OccursAt(line, ":", |h.0|);
    forall i | 0 <= i < |h.0| ensures !OccursAt(line, ":", i) {}
    IndexOfFound(line, ":", 0, |h.0|);
    assert line[..|h.0|] == h.0;
    TrimmedIsFixed(h.0);
    assert line[|h.0| + 1..] == " " + h.1;
    if h.1 == "" {
      assert " " + h.1 == " ";
      assert TrimStart(" ") == TrimStart(" "[1..]) == "";
    } else {
      TrimPadded(" ", h.1, "");
      assert " " + h.1 + "" == " " + h.1;
    }
  }

  lemma {:induction false} LinesReadBack(hs: seq<(string, string)>)
    requires CleanHeaders(hs)
    ensures HeadersOf(Lines(hs)) == HeaderMap(hs)
  {
    if hs != [] {
      var init := hs[..|hs| - 1];
      assert Lines(hs)[..|hs| - 1] == Lines(init);
      LinesReadBack(init);
      HeaderReadBack(HeaderMap(init), hs[|hs| - 1]);
    }
  }

  // ---------------------------------------------------------------- one part

  lemma BlankLineAfterHeaders(p: Source)
    requires p.headers != [] && CleanHeaders(p.headers)
    ensures |PrintHeaders(p.headers)| >= 4
    ensures BlankLine(PartText(p)) == Some((|PrintHeaders(p.headers)| - 2, 4))
  {
    HeaderBlockShape(p.headers);
    var block, text := PrintHeaders(p.headers), PartText(p);
    var at := |block| - 2;
    assert forall i :: 0 <= i < |block| ==> text[i] == block[i];
    assert text[|block|] == '\r' && text[|block| + 1] == '\n';
    assert OccursAt(text, "\r\n\r\n", at);
    forall i | 0 <= i < at ensures !OccursAt(text, "\r\n\r\n", i) {
      var t := "\r\n\r\n";
      if text[i + 1] == t[1] {
        assert block[i + 2 - 1] == '\n';
        assert text[i + 2] != t[2];
      }
    }
    IndexOfFound(text, "\r\n\r\n", 0, at);
  }

  lemma RawTrims(p: Source)
    requires p.headers != [] && CleanHeaders(p.headers) && p.body != "" && Trimmed(p.body)
    ensures Trim(RawText(p)) == PartText(p) && |PartText(p)| > 2
  {
    var block, text := PrintHeaders(p.headers), PartText(p);
    HeaderBlockShape(p.headers);
    assert text[0] == block[0] && text[|text| - 1] == p.body[|p.body| - 1];
    TrimPadded("\r\n", text, "\r\n");
  }

  lemma ParseTrimmed(raw: string, head: string, body: string)
    requires Trim(raw) == head + "\r\n\r\n" + body
    requires BlankLine(head + "\r\n\r\n" + body) == Some((|head|, 4))
    ensures ParseRaw(raw) == [Part(HeadersOf(SplitLines(head)), Trim(body))]
  {
    var text := head + "\r\n\r\n" + body;
    assert text[..|head|] == head;
    assert text[|head| + 4..] == body;
    assert |text| > 2;
  }

  lemma PartReadBack(p: Source)
    requires p.headers != [] && CleanHeaders(p.headers) && p.body != "" && Trimmed(p.body)
    ensures ParseRaw(RawText(p)) == [Expected(p)]
  {
    var head := Head(p.headers);
    RawTrims(p);
    BlankLineAfterHeaders(p);
    HeadIsBlock(p.headers);
    assert PartText(p) == head + "\r\n\r\n" + p.body;
    ParseTrimmed(RawText(p), head, p.body);
    SplitGivesLines(p.headers);
    LinesReadBack(p.headers);
    TrimmedIsFixed(p.body);
  }

  // ---------------------------------------------------------------- the whole text

  /** No token starts inside a part that ends with a line break. */
  lemma NoTokenInside(token: string, raw: string, more: string, buf: string, i: nat)
    requires token != "" && NoBreak(token) && buf == token + raw + (token + more)
    requires raw != "" && raw[|raw| - 1] == '\n' && !OccursAt(raw, token, i) && i < |raw|
    ensures !OccursAt(buf, token, |token| + i)
  {
    var at := |token| + i;
    if i + |token| <= |raw| {
      var k :| 0 <= k < |token| && raw[i + k] != token[k];
      assert buf[at + k] == raw[i + k];
    } else {
      var k := |raw| - 1 - i;
      assert buf[at + k] == raw[|raw| - 1] != token[k];
    }
  }

  lemma TokensAround(token: string, raw: string, more: string, buf: string)
    requires buf == token + raw + (token + more)
    ensures OccursAt(buf, token, 0) && OccursAt(buf, token, |token| + |raw|)
    ensures buf[|token|..|token| + |raw|] == raw
  {
    assert forall k :: 0 <= k < |token| ==> buf[k] == token[k];
    assert forall k :: 0 <= k < |token| ==> buf[|token| + |raw| + k] == token[k];
  }

  ghost predicate NoneBetween(buf: string, token: string, from: nat, to: nat) {
    forall i :: from <= i < to ==> !OccursAt(buf, token, i)
  }

  lemma NoTokensInside(token: string, raw: string, more: string, buf: string)
    requires token != "" && NoBreak(token) && buf == token + raw + (token + more)
    requires raw != "" && raw[|raw| - 1] == '\n' && forall i :: !OccursAt(raw, token, i)
    ensures NoneBetween(buf, token, |token|, |token| + |raw|)
  {
    forall i | |token| <= i < |token| + |raw| ensures !OccursAt(buf, token, i) {
      NoTokenInside(token, raw, more, buf, i - |token|);
    }
  }

  lemma TokenPlaces(token: string, buf: string, second: nat)
    requires token != "" && |token| <= second && OccursAt(buf, token, 0) && OccursAt(buf, token, second)
    requires NoneBetween(buf, token, |token|, second)
    ensures second <= |buf| && NextTurn(token, buf) == Complete(buf[|token|..second], second)
  {
    IndexOfFound(buf, token, 0, 0);
    IndexOfFound(buf, token, |token|, second);
  }

  /** The first two tokens of a printed text enclose the first part. */
  lemma FirstPartIsNext(token: string, raw: string, more: string, buf: string)
    requires token != "" && NoBreak(token) && buf == token + raw + (token + more)
    requires raw != "" && raw[|raw| - 1] == '\n' && forall i :: !OccursAt(raw, token, i)
    ensures NextTurn(token, buf) == Complete(raw, |token| + |raw|)
  {
    TokensAround(token, raw, more, buf);
    NoTokensInside(token, raw, more, buf);
    TokenPlaces(token, buf, |token| + |raw|);
  }

  /** The closing boundary yields no part; with a non-empty boundary name it stays buffered whole. */
  lemma ClosingStays(boundary: string)
    ensures var token := "--" + boundary;
            && Drain(ParseRaw, token, token + "--").parts == []
            && (boundary != "" ==> Drain(ParseRaw, token, token + "--").rest == token + "--")
  {
    var token := "--" + boundary;
    var buf := token + "--";
    assert OccursAt(buf, token, 0);
    IndexOfFound(buf, token, 0, 0);
    var second := IndexOf(buf, token, |token|);
    TurnAt(token, buf, 0, second);
    if second < 0 {
      assert buf[0..] == buf;
      assert Drain(ParseRaw, token, buf) == Drained([], buf);
    } else {
      assert token == "--" && second == 2;
      var tail := buf[second..];
      assert tail == "--" && buf[2..2] == "";
      assert IndexOf(tail, token, 0) == 0 by {
        assert OccursAt(tail, token, 0);
        IndexOfFound(tail, token, 0, 0);
      }
      TurnAt(token, tail, 0, IndexOf(tail, token, 2));
      assert Drain(ParseRaw, token, tail).parts == [];
      assert ParseRaw("") == [];
    }
  }

  function ExpectedAll(ps: seq<Source>): seq<Part> {
    seq(|ps|, i requires 0 <= i < |ps| => Expected(ps[i]))
  }

  lemma OnePartThenRest(read: string -> seq<Part>, token: string, raw: string, more: string)
    requires token != "" && NoBreak(token)
    requires raw != "" && raw[|raw| - 1] == '\n' && forall i :: !OccursAt(raw, token, i)
    ensures Drain(read, token, token + raw + (token + more)) == Prepend(read(raw), Drain(read, token, token + more))
  {
    FirstPartIsNext(token, raw, more, token + raw + (token + more));
    assert (token + raw + (token + more))[|token| + |raw|..] == token + more;
  }

  lemma PrintStartsWithToken(token: string, ps: seq<Source>)
    ensures exists more :: Print(token, ps) == token + more
  {
    if ps == [] {
      assert Print(token, ps) == token + "--";
    } else {
      assert Print(token, ps) == token + (RawText(ps[0]) + Print(token, ps[1..]));
    }
  }

  lemma FirstPrintedPart(read: string -> seq<Part>, token: string, ps: seq<Source>)
    requires token != "" && NoBreak(token) && ps != [] && forall j :: !OccursAt(RawText(ps[0]), token, j)
    ensures Drain(read, token, Print(token, ps)) ==
              Prepend(read(RawText(ps[0])), Drain(read, token, Print(token, ps[1..])))
  {
    PrintStartsWithToken(token, ps[1..]);
    var more :| Print(token, ps[1..]) == token + more;
    OnePartThenRest(read, token, RawText(ps[0]), more);
  }

  lemma PartInFront(parts: seq<Part>, whole: Drained, rest: Drained, last: Drained)
    requires parts != [] && whole == Prepend([parts[0]], rest) && rest == Prepend(parts[1..], last)
    ensures whole == Prepend(parts, last)
  {
    PrependTwice([parts[0]], parts[1..], last);
    assert parts == [parts[0]] + parts[1..];
  }

  /** The parts read from the printed sources, none of which contains a token. */
  ghost predicate ReadAs(read: string -> seq<Part>, token: string, ps: seq<Source>, parts: seq<Part>) {
    && |parts| == |ps|
    && (forall i :: 0 <= i < |ps| ==> read(RawText(ps[i])) == [parts[i]])
    && forall i, j :: 0 <= i < |ps| ==> !OccursAt(RawText(ps[i]), token, j)
  }

  lemma ReadRest(read: string -> seq<Part>, token: string, ps: seq<Source>, parts: seq<Part>)
    requires ps != [] && ReadAs(read, token, ps, parts)
    ensures ReadAs(read, token, ps[1..], parts[1..])
  {
    assert forall i :: 0 <= i < |ps| - 1 ==> ps[1..][i] == ps[i + 1] && parts[1..][i] == parts[i + 1];
  }

  lemma {:induction false} DrainPrinted(read: string -> seq<Part>, token: string, ps: seq<Source>, parts: seq<Part>)
    requires token != "" && NoBreak(token) && ReadAs(read, token, ps, parts)
    ensures Drain(read, token, Print(token, ps)) == Prepend(parts, Drain(read, token, token + "--"))
  {
    if ps != [] {
      FirstPrintedPart(read, token, ps);
      ReadRest(read, token, ps, parts);
      DrainPrinted(read, token, ps[1..], parts[1..]);
      PartInFront(parts, Drain(read, token, Print(token, ps)), Drain(read, token, Print(token, ps[1..])),
                  Drain(read, token, token + "--"));
    }
  }

  /** Main result: a printed multipart text parses back to the same headers (names lower-cased) and
      bodies in order; only the closing boundary (non-empty boundary name) stays buffered. */
  lemma PrintThenParse(boundary: string, ps: seq<Source>)
    requires NoBreak(boundary) && forall i :: 0 <= i < |ps| ==> Clean("--" + boundary, ps[i])
    ensures Drain(ParseRaw, "--" + boundary, Print("--" + boundary, ps)).parts == ExpectedAll(ps)
    ensures boundary != "" ==>
              Drain(ParseRaw, "--" + boundary, Print("--" + boundary, ps)).rest == "--" + boundary + "--"
  {
    var token := "--" + boundary;
    forall i | 0 <= i < |ps| ensures ParseRaw(RawText(ps[i])) == [ExpectedAll(ps)[i]] {
      assert Clean(token, ps[i]);
      PartReadBack(ps[i]);
    }
    forall i, j | 0 <= i < |ps| ensures !OccursAt(RawText(ps[i]), token, j) {
      assert Clean(token, ps[i]);
    }
    DrainPrinted(ParseRaw, token, ps, ExpectedAll(ps));
    ClosingStays(boundary);
  }

  /** The same however the stream is cut into chunks. */
  lemma PrintThenStream(boundary: string, ps: seq<Source>, chunks: seq<string>)
    requires NoBreak(boundary) && forall i :: 0 <= i < |ps| ==> Clean("--" + boundary, ps[i])
    requires chunks != [] && Concat(chunks) == Print("--" + boundary, ps)
    ensures PushAll(Pusher("--" + boundary), "", chunks).parts == ExpectedAll(ps)
  {
    PrintThenParse(boundary, ps);
    AnyChunkingEqualsOnePush("--" + boundary, "", chunks);
    assert "" + Concat(chunks) == Print("--" + boundary, ps);
  }

  // ---------------------------------------------------------------- parts as others write them

  /** A header line is cut at its first colon, its name lower-cased; a line without one adds nothing. */
  lemma HeaderLineIsRead(headers: map<string, string>, name: string, value: string)
    requires forall i :: 0 <= i < |name| ==> name[i] != ':'
    ensures AddHeader(headers, name + ":" + value) == headers[Lower(Trim(name)) := Trim(value)]
    ensures AddHeader(headers, name) == headers
  {
    var line := name + ":" + value;
    OccursOne(line, ':', |name|);
    forall i | 0 <= i < |name| ensures !OccursAt(line, ":", i) && !OccursAt(name, ":", i) {
      OccursOne(line, ':', i);
      OccursOne(name, ':', i);
    }
    IndexOfFound(line, ":", 0, |name|);
    IndexOfMissing(name, ":", 0);
    assert line[..|name|] == name && line[|name| + 1..] == value;
  }

  /** A part whose header block ends with bare line feeds, and that has no blank line of the other kind, is read as
      well. */
  lemma LineFeedPartIsRead(head: string, body: string)
    requires Trimmed(head + "\n\n" + body) && head != ""
    requires forall i :: !OccursAt(head + "\n\n" + body, "\r\n\r\n", i)
    requires forall i :: 0 <= i < |head| ==> !OccursAt(head + "\n\n" + body, "\n\n", i)
    ensures ParseRaw(head + "\n\n" + body) == [Part(HeadersOf(SplitLines(head)), Trim(body))]
  {
    var text := head + "\n\n" + body;
    TrimmedIsFixed(text);
    IndexOfMissing(text, "\r\n\r\n", 0);
    assert OccursAt(text, "\n\n", |head|);
    IndexOfFound(text, "\n\n", 0, |head|);
    assert text[..|head|] == head && text[|head| + 2..] == body;
    assert |text| > 2;
  }

  /** Text between boundaries that has no blank line is no part; so the closing marker and an empty stretch are none. */
  lemma NoBlankLineNoPart(raw: string)
    requires forall i :: !OccursAt(Trim(raw), "\r\n\r\n", i) && !OccursAt(Trim(raw), "\n\n", i)
    ensures ParseRaw(raw) == []
  {
    IndexOfMissing(Trim(raw), "\r\n\r\n", 0);
    IndexOfMissing(Trim(raw), "\n\n", 0);
  }
}
