/** What the semicolon splitter takes for one token, as a grammar: plain characters, quotations and nested braces
    (src/infra/dahua/parsers/access-control-push.ts). */
module SemicolonGrammar {
  import opened Text
  import opened SemicolonSplit

  datatype Piece = Plain(c: char) | Quoted(mark: char, body: string) | Braced(inside: seq<Piece>)

  function Show(p: Piece): string {
    match p
    case Plain(c) => [c]
    case Quoted(mark, body) => [mark] + body + [mark]
    case Braced(inside) => "{" + ShowAll(inside) + "}"
  }

  function ShowAll(ps: seq<Piece>): string {
    if ps == [] then "" else Show(ps[0]) + ShowAll(ps[1..])
  }

  /** Inside a quotation its mark stands only behind a backslash, and no backslash stands at the end. */
  ghost predicate Closed(mark: char, body: string) {
    && (forall i :: 0 <= i < |body| && body[i] == mark ==> i > 0 && body[i - 1] == '\\')
    && (body == "" || body[|body| - 1] != '\\')
  }

  /** Single or double quotes quote; a semicolon may stand inside quotes and braces only, and a closing brace that
      closes nothing is a plain character. */
  ghost predicate Proper(p: Piece, nested: bool) {
    match p
    case Plain(c) => c != '"' && c != '\'' && c != '{' && (if nested then c != '}' else c != ';')
    case Quoted(mark, body) => (mark == '"' || mark == '\'') && Closed(mark, body)
    case Braced(inside) => forall q :: q in inside ==> Proper(q, true)
  }

  ghost predicate AllProper(ps: seq<Piece>, nested: bool) { forall p :: p in ps ==> Proper(p, nested) }

  // ---------------------------------------------------------------- reading a piece

  lemma {:induction false} ReadInTurn(m: SemicolonSplit.Mode, a: string, b: string)
    ensures ModeAfter(m, a + b) == ModeAfter(ModeAfter(m, a), b)
    ensures Uncut(m, a + b) <==> Uncut(m, a) && Uncut(ModeAfter(m, a), b)
    decreases |a|
  {
    if a == "" {
      assert a + b == b;
    } else {
      assert (a + b)[1..] == a[1..] + b;
      ReadInTurn(Next(m, a[0]), a[1..], b);
    }
  }

  lemma ReadOne(m: SemicolonSplit.Mode, c: char)
    ensures ModeAfter(m, [c]) == Next(m, c) && (Uncut(m, [c]) <==> !Cuts(m, c))
  {
    assert [c][1..] == "";
  }

  /** Within a quotation only the last character read matters. */
  lemma {:induction false} InsideQuotes(depth: nat, mark: char, body: string, n: nat)
    requires n <= |body| && forall i :: 0 <= i < |body| && body[i] == mark ==> i > 0 && body[i - 1] == '\\'
    ensures var m := Mode(depth, Inside(mark, false));
            && Uncut(m, body[..n])
            && ModeAfter(m, body[..n]) == Mode(depth, Inside(mark, n > 0 && body[n - 1] == '\\'))
  {
    if n > 0 {
      InsideQuotes(depth, mark, body, n - 1);
      assert body[..n] == body[..n - 1] + [body[n - 1]];
      ModeAfterAppend(Mode(depth, Inside(mark, false)), body[..n - 1], body[n - 1]);
    }
  }

  lemma QuotationIsPassed(depth: nat, mark: char, body: string)
    requires Proper(Quoted(mark, body), depth > 0)
    ensures var m := Mode(depth, Outside);
            Uncut(m, Show(Quoted(mark, body))) && ModeAfter(m, Show(Quoted(mark, body))) == m
  {
    var m := Mode(depth, Outside);
    InsideQuotes(depth, mark, body, |body|);
    assert body[..|body|] == body;
    ReadOne(m, mark);
    ReadInTurn(m, [mark], body);
    ModeAfterAppend(m, [mark] + body, mark);
  }

  /** A piece is read without a cut and leaves the mode as it was. */
  lemma {:induction false} PieceIsPassed(depth: nat, p: Piece)
    requires Proper(p, depth > 0)
    ensures var m := Mode(depth, Outside); Uncut(m, Show(p)) && ModeAfter(m, Show(p)) == m
    decreases p, 0
  {
    var m := Mode(depth, Outside);
    match p
    case Plain(c) => ReadOne(m, c);
    case Quoted(mark, body) => QuotationIsPassed(depth, mark, body);
    case Braced(inside) =>
      ReadOne(m, '{');
      PiecesArePassed(depth + 1, inside);
      ReadInTurn(m, "{", ShowAll(inside));
      ModeAfterAppend(m, "{" + ShowAll(inside), '}');
  }

  lemma {:induction false} PiecesArePassed(depth: nat, ps: seq<Piece>)
    requires AllProper(ps, depth > 0)
    ensures var m := Mode(depth, Outside); Uncut(m, ShowAll(ps)) && ModeAfter(m, ShowAll(ps)) == m
    decreases ps, 1
  {
    if ps != [] {
      PieceIsPassed(depth, ps[0]);
      PiecesArePassed(depth, ps[1..]);
      ReadInTurn(Mode(depth, Outside), Show(ps[0]), ShowAll(ps[1..]));
    }
  }

  // ---------------------------------------------------------------- tokens

  function Tokens(list: seq<seq<Piece>>): seq<string> {
    seq(|list|, i requires 0 <= i < |list| => ShowAll(list[i]))
  }

  /** Main result: tokens made of plain characters, quotations and braces come back from the splitter as they were,
      when the last one is not empty. */
  lemma SplitReadsGrammar(list: seq<seq<Piece>>)
    requires forall i :: 0 <= i < |list| ==> AllProper(list[i], false)
    requires list != [] ==> ShowAll(list[|list| - 1]) != ""
    ensures Split(Join(Tokens(list), ";")) == Tokens(list)
  {
    forall i | 0 <= i < |list| ensures Uncut(START, Tokens(list)[i]) && ModeAfter(START, Tokens(list)[i]) == START {
      PiecesArePassed(0, list[i]);
    }
    JoinThenSplit(Tokens(list));
  }
}
