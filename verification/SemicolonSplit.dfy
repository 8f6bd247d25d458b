/** The quote- and brace-aware splitter of src/infra/dahua/parsers/access-control-push.ts. */
module SemicolonSplit {
  import opened Common
  import opened Text

  /** Inside a quotation, `escaped` says whether the previous character is a backslash. */
  datatype Quote = Outside | Inside(mark: char, escaped: bool)

  datatype Mode = Mode(depth: nat, quote: Quote)

  const START := Mode(0, Outside)

  predicate IsMark(c: char) { c == '"' || c == '\'' }

  /** This character separates two tokens. */
  predicate Cuts(m: Mode, c: char) { m == START && c == ';' }

  function Next(m: Mode, c: char): Mode {
    match m.quote
    case Inside(mark, escaped) =>
      m.(quote := if c == mark && !escaped then Outside else Inside(mark, c == '\\'))
    case Outside =>
      if IsMark(c) then m.(quote := Inside(c, false))
      else if c == '{' then m.(depth := m.depth + 1)
      else if c == '}' then m.(depth := if m.depth == 0 then 0 else m.depth - 1)
      else m
  }

  /** Tokens of the rest of the input, given the mode and the characters already collected. */
  function Scan(s: string, m: Mode, cur: string): seq<string>
    decreases |s|
  {
    if s == "" then if cur == "" then [] else [cur]
    else if Cuts(m, s[0]) then [cur] + Scan(s[1..], m, "")
    else Scan(s[1..], Next(m, s[0]), cur + [s[0]])
  }

  function Split(s: string): seq<string> { Scan(s, START, "") }

  method SplitBySemicolon(input: string) returns (out: seq<string>)
    ensures out == Split(input)
  {
    out := [];
    var cur, depth: nat, quote: Option<char> := "", 0, None;
    ghost var m := START;
    for i := 0 to |input|
      invariant m.depth == depth && (quote.None? <==> m.quote.Outside?)
      invariant quote.Some? ==> i > 0 && m.quote == Inside(quote.value, input[i - 1] == '\\')
      invariant quote.Some? ==> IsMark(quote.value)
      invariant Split(input) == out + Scan(input[i..], m, cur)
    {
      var ch := input[i];
      assert input[i..][0] == ch && input[i..][1..] == input[i + 1..];
      ghost var was := m;
      if !Cuts(m, ch) {
        m := Next(m, ch);
      }
      if quote.Some? {
        cur := cur + [ch];
        if ch == quote.value && input[i - 1] != '\\' {
          quote := None;
        }
        continue;
      }
      if IsMark(ch) {
        quote := Some(ch);
        cur := cur + [ch];
        continue;
      }
      if ch == '{' {
        depth := depth + 1;
        cur := cur + [ch];
        continue;
      }
      if ch == '}' {
        depth := if depth == 0 then 0 else depth - 1;
        cur := cur + [ch];
        continue;
      }
      if ch == ';' && depth == 0 {
        assert out + ([cur] + Scan(input[i + 1..], m, "")) == out + [cur] + Scan(input[i + 1..], m, "");
        out := out + [cur];
        cur := "";
        continue;
      }
      cur := cur + [ch];
    }
    assert input[|input|..] == "";
    if cur != "" {
      out := out + [cur];
    }
  }

  // ---------------------------------------------------------------- joining the tokens again

  /** What is left in the collector when the input ends. */
  function Leftover(s: string, m: Mode, cur: string): string
    decreases |s|
  {
    if s == "" then cur
    else if Cuts(m, s[0]) then Leftover(s[1..], m, "")
    else Leftover(s[1..], Next(m, s[0]), cur + [s[0]])
  }

  lemma JoinCons(t: string, ts: seq<string>)
    requires ts != []
    ensures Join([t] + ts, ";") == t + ";" + Join(ts, ";")
  {
    assert ([t] + ts)[1..] == ts;
  }

  /** Tokens and what is left over make up the text, except for a separator nothing follows. */
  ghost predicate MakesUp(tokens: seq<string>, left: string, text: string) {
    if left != "" then tokens != [] && tokens[|tokens| - 1] == left && Join(tokens, ";") == text
    else if tokens == [] then text == "" else Join(tokens, ";") + ";" == text
  }

  lemma TokenInFront(cur: string, tokens: seq<string>, left: string, text: string)
    requires MakesUp(tokens, left, text)
    ensures MakesUp([cur] + tokens, left, cur + ";" + text)
  {
    if tokens == [] {
      assert [cur] + tokens == [cur];
      assert cur + ";" + text == cur + ";";
    } else {
      JoinCons(cur, tokens);
      if left == "" {
        assert cur + ";" + (Join(tokens, ";") + ";") == cur + ";" + Join(tokens, ";") + ";";
      }
    }
  }

  lemma {:induction false} ScanJoins(s: string, m: Mode, cur: string)
    ensures MakesUp(Scan(s, m, cur), Leftover(s, m, cur), cur + s)
    decreases |s|
  {
    if s == "" {
      assert cur + s == cur;
    } else if Cuts(m, s[0]) {
      ScanJoins(s[1..], m, "");
      assert "" + s[1..] == s[1..] && cur + s == cur + ";" + s[1..];
      TokenInFront(cur, Scan(s[1..], m, ""), Leftover(s[1..], m, ""), s[1..]);
    } else {
      ScanJoins(s[1..], Next(m, s[0]), cur + [s[0]]);
      assert cur + [s[0]] + s[1..] == cur + s;
    }
  }

  /** Joining the output gives back the input, or the input without its final separator when
      nothing follows that separator. */
  lemma SplitThenJoin(s: string)
    ensures Leftover(s, START, "") != "" || s == "" ==> Join(Split(s), ";") == s
    ensures Leftover(s, START, "") == "" && s != "" ==> Join(Split(s), ";") + ";" == s
  {
    ScanJoins(s, START, "");
    assert "" + s == s;
  }

  // ---------------------------------------------------------------- splitting a join

  function ModeAfter(m: Mode, t: string): Mode
    decreases |t|
  {
    if t == "" then m else ModeAfter(Next(m, t[0]), t[1..])
  }

  /** Reading `t` from mode `m` meets no separator. */
  predicate Uncut(m: Mode, t: string)
    decreases |t|
  {
    t == "" || (!Cuts(m, t[0]) && Uncut(Next(m, t[0]), t[1..]))
  }

  /** No token has a separator outside quotes and braces, every token but the last closes its quotes and
      braces, and the last one is not empty. */
  ghost predicate TokenList(ts: seq<string>) {
    && (forall i :: 0 <= i < |ts| ==> Uncut(START, ts[i]))
    && (forall i :: 0 <= i < |ts| - 1 ==> ModeAfter(START, ts[i]) == START)
    && (ts != [] ==> ts[|ts| - 1] != "")
  }

  lemma {:induction false} ScanToken(t: string, more: string, m: Mode, cur: string)
    requires Uncut(m, t)
    ensures Scan(t + more, m, cur) == Scan(more, ModeAfter(m, t), cur + t)
    decreases |t|
  {
    if t == "" {
      assert t + more == more && cur + t == cur;
    } else {
      assert (t + more)[1..] == t[1..] + more;
      ScanToken(t[1..], more, Next(m, t[0]), cur + [t[0]]);
      assert cur + [t[0]] + t[1..] == cur + t;
    }
  }

  lemma {:induction false} JoinThenSplit(ts: seq<string>)
    requires TokenList(ts)
    ensures Split(Join(ts, ";")) == ts
  {
    if |ts| == 1 {
      ScanToken(ts[0], "", START, "");
      assert ts[0] + "" == ts[0] && "" + ts[0] == ts[0];
    } else if |ts| > 1 {
      var rest := ts[1..];
      JoinThenSplit(rest);
      var more := ";" + Join(rest, ";");
      ScanToken(ts[0], more, START, "");
      assert ts[0] + ";" + Join(rest, ";") == ts[0] + more;
      assert more[1..] == Join(rest, ";");
      assert "" + ts[0] == ts[0];
      assert ts == [ts[0]] + rest;
    }
  }

  lemma {:induction false} ModeAfterAppend(m: Mode, t: string, c: char)
    ensures ModeAfter(m, t + [c]) == Next(ModeAfter(m, t), c)
    ensures Uncut(m, t + [c]) <==> Uncut(m, t) && !Cuts(ModeAfter(m, t), c)
    decreases |t|
  {
    if t == "" {
      assert t + [c] == [c] && [c][1..] == "";
    } else {
      assert (t + [c])[1..] == t[1..] + [c];
      ModeAfterAppend(Next(m, t[0]), t[1..], c);
    }
  }

  ghost predicate CleanTokens(ts: seq<string>) {
    forall i :: 0 <= i < |ts| ==> Uncut(START, ts[i]) && (i < |ts| - 1 ==> ModeAfter(START, ts[i]) == START)
  }

  lemma CleanCons(t: string, ts: seq<string>)
    requires Uncut(START, t) && ModeAfter(START, t) == START && CleanTokens(ts)
    ensures CleanTokens([t] + ts)
  {
    var out := [t] + ts;
    forall i | 0 <= i < |out|
      ensures Uncut(START, out[i]) && (i < |out| - 1 ==> ModeAfter(START, out[i]) == START)
    {
      if i > 0 { assert out[i] == ts[i - 1]; }
    }
  }

  /** Every token produced is itself free of separators, and all but the last are closed. */
  lemma {:induction false} ScanGivesTokens(s: string, m: Mode, cur: string)
    requires Uncut(START, cur) && m == ModeAfter(START, cur)
    ensures CleanTokens(Scan(s, m, cur))
    decreases |s|
  {
    if s != "" {
      if Cuts(m, s[0]) {
        ScanGivesTokens(s[1..], m, "");
        CleanCons(cur, Scan(s[1..], m, ""));
      } else {
        ModeAfterAppend(START, cur, s[0]);
        ScanGivesTokens(s[1..], Next(m, s[0]), cur + [s[0]]);
      }
    }
  }

  /** Main result: splitting undoes joining exactly for token lists. */
  lemma SplitInvertsJoinExactly(ts: seq<string>)
    ensures Split(Join(ts, ";")) == ts <==> TokenList(ts)
  {
    if TokenList(ts) {
      JoinThenSplit(ts);
    }
    if Split(Join(ts, ";")) == ts {
      var s := Join(ts, ";");
      ScanGivesTokens(s, START, "");
      ScanJoins(s, START, "");
      assert "" + s == s;
    }
  }
}
