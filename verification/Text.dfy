/** The string operations the parsers use. White space is the set removed by `String.trim`;
    lower-casing covers the ASCII letters. */
module Text {

  predicate IsSpace(c: char) {
    || c == ' ' || '\t' <= c <= '\r' || c == '\U{00A0}' || c == '\U{FEFF}' || c == '\U{1680}'
    || '\U{2000}' <= c <= '\U{200A}' || c == '\U{2028}' || c == '\U{2029}' || c == '\U{202F}'
    || c == '\U{205F}' || c == '\U{3000}'
  }

  function TrimStart(s: string): string {
    if s != "" && IsSpace(s[0]) then TrimStart(s[1..]) else s
  }

  function TrimEnd(s: string): string {
    if s != "" && IsSpace(s[|s| - 1]) then TrimEnd(s[..|s| - 1]) else s
  }

  function Trim(s: string): string { TrimEnd(TrimStart(s)) }

  /** No white space at either end. */
  predicate Trimmed(s: string) {
    s != "" ==> !IsSpace(s[0]) && !IsSpace(s[|s| - 1])
  }

  lemma TrimmedIsFixed(s: string)
    requires Trimmed(s)
    ensures Trim(s) == s
  {}

  predicate AllSpace(s: string) { forall i :: 0 <= i < |s| ==> IsSpace(s[i]) }

  lemma {:induction false} TrimStartSpaces(pad: string, s: string)
    requires AllSpace(pad) && s != "" && !IsSpace(s[0])
    ensures TrimStart(pad + s) == s
  {
    if pad == "" {
      assert pad + s == s;
    } else {
      assert (pad + s)[1..] == pad[1..] + s;
      TrimStartSpaces(pad[1..], s);
    }
  }

  lemma {:induction false} TrimEndSpaces(s: string, pad: string)
    requires AllSpace(pad) && s != "" && !IsSpace(s[|s| - 1])
    ensures TrimEnd(s + pad) == s
  {
    if pad == "" {
      assert s + pad == s;
    } else {
      assert (s + pad)[..|s + pad| - 1] == s + pad[..|pad| - 1];
      TrimEndSpaces(s, pad[..|pad| - 1]);
    }
  }

  /** Trimming removes exactly the white space around a non-empty trimmed text. */
  lemma TrimPadded(before: string, s: string, after: string)
    requires AllSpace(before) && AllSpace(after) && s != "" && Trimmed(s)
    ensures Trim(before + s + after) == s
  {
    assert before + s + after == before + (s + after);
    TrimStartSpaces(before, s + after);
    TrimEndSpaces(s, after);
  }

  // ---------------------------------------------------------------- searching

  predicate OccursAt(s: string, t: string, i: int) {
    0 <= i && i + |t| <= |s| && forall k :: 0 <= k < |t| ==> s[i + k] == t[k]
  }

  lemma OccursOne(s: string, c: char, i: int)
    ensures OccursAt(s, [c], i) <==> 0 <= i < |s| && s[i] == c
  {
    assert [c][0] == c;
    if OccursAt(s, [c], i) {
      assert s[i + 0] == [c][0];
    }
  }

  /** `s.indexOf(t, from)`, -1 when there is no occurrence. */
  function IndexOf(s: string, t: string, from: nat): (r: int)
    ensures r == -1 || from <= r <= r + |t| <= |s|
    decreases |s| - from
  {
    if from + |t| > |s| then -1
    else if OccursAt(s, t, from) then from
    else if from == |s| then -1
    else IndexOf(s, t, from + 1)
  }

  lemma {:induction false} IndexOfIsFirst(s: string, t: string, from: nat)
    requires t != ""
    ensures var r := IndexOf(s, t, from);
            && (r < 0 ==> r == -1 && forall i :: from <= i ==> !OccursAt(s, t, i))
            && (r >= 0 ==> from <= r && OccursAt(s, t, r) && forall i :: from <= i < r ==> !OccursAt(s, t, i))
    decreases |s| - from
  {
    if from + |t| <= |s| && !OccursAt(s, t, from) {
      IndexOfIsFirst(s, t, from + 1);
    }
  }

  lemma IndexOfFound(s: string, t: string, from: nat, at: nat)
    requires t != "" && from <= at && OccursAt(s, t, at)
    requires forall i :: from <= i < at ==> !OccursAt(s, t, i)
    ensures IndexOf(s, t, from) == at
  {
    IndexOfIsFirst(s, t, from);
  }

  lemma IndexOfMissing(s: string, t: string, from: nat)
    requires t != "" && forall i :: from <= i ==> !OccursAt(s, t, i)
    ensures IndexOf(s, t, from) == -1
  {
    IndexOfIsFirst(s, t, from);
  }

  lemma IndexOfAgain(s: string, t: string)
    requires t != "" && IndexOf(s, t, 0) >= 0
    ensures IndexOf(s, t, IndexOf(s, t, 0)) == IndexOf(s, t, 0)
  {
    IndexOfIsFirst(s, t, 0);
  }

  /** Appending text does not move an occurrence already found. */
  lemma IndexOfExtends(s: string, more: string, t: string, from: nat)
    requires t != "" && IndexOf(s, t, from) >= 0
    ensures IndexOf(s + more, t, from) == IndexOf(s, t, from)
  {
    IndexOfIsFirst(s, t, from);
    var r := IndexOf(s, t, from);
    forall i | from <= i <= r ensures OccursAt(s + more, t, i) <==> OccursAt(s, t, i) {
      assert (s + more)[i..i + |t|] == s[i..i + |t|];
    }
    IndexOfFound(s + more, t, from, r);
  }

  /** Searching in a suffix is searching in the whole text from further on. */
  lemma IndexOfInSuffix(s: string, t: string, cut: nat, from: nat)
    requires t != "" && cut <= |s|
    ensures var whole := IndexOf(s, t, cut + from);
            IndexOf(s[cut..], t, from) == if whole < 0 then -1 else whole - cut
  {
    IndexOfIsFirst(s, t, cut + from);
    var whole := IndexOf(s, t, cut + from);
    forall i: nat ensures OccursAt(s[cut..], t, i) <==> OccursAt(s, t, cut + i) {
      if cut + i + |t| <= |s| {
        assert s[cut..][i..i + |t|] == s[cut + i..cut + i + |t|];
      }
    }
    if whole < 0 {
      forall i | from <= i ensures !OccursAt(s[cut..], t, i) {
        assert !OccursAt(s, t, cut + i);
      }
      IndexOfMissing(s[cut..], t, from);
    } else {
      forall i | from <= i < whole - cut ensures !OccursAt(s[cut..], t, i) {
        assert !OccursAt(s, t, cut + i);
      }
      IndexOfFound(s[cut..], t, from, whole - cut);
    }
  }

  // ---------------------------------------------------------------- lines

  /** `text.split(/\r?\n/)`. */
  function SplitLines(s: string): seq<string>
    decreases |s|
  {
    var i := IndexOf(s, "\n", 0);
    if i < 0 then [s]
    else [StripCr(s[..i])] + SplitLines(s[i + 1..])
  }

  function StripCr(line: string): string {
    if line != "" && line[|line| - 1] == '\r' then line[..|line| - 1] else line
  }

  predicate NoBreak(s: string) { forall i :: 0 <= i < |s| ==> s[i] != '\r' && s[i] != '\n' }

  /** The first line ends at the first line feed, whether or not a carriage return precedes it. */
  lemma SplitAtBreak(raw: string, more: string)
    requires forall i :: 0 <= i < |raw| ==> raw[i] != '\n'
    ensures SplitLines(raw + "\n" + more) == [StripCr(raw)] + SplitLines(more)
  {
    var s := raw + "\n" + more;
    assert s[|raw|] == '\n';
    OccursOne(s, '\n', |raw|);
    forall i | 0 <= i < |raw| ensures !OccursAt(s, "\n", i) {
      OccursOne(s, '\n', i);
      assert s[i] == raw[i];
    }
    IndexOfFound(s, "\n", 0, |raw|);
    assert s[..|raw|] == raw && s[|raw| + 1..] == more;
  }

  lemma SplitFirstLine(line: string, more: string)
    requires NoBreak(line)
    ensures SplitLines(line + "\r\n" + more) == [line] + SplitLines(more)
  {
    var raw := line + "\r";
    SplitAtBreak(raw, more);
    assert line + "\r\n" + more == raw + "\n" + more;
    assert StripCr(raw) == line;
  }

  lemma SplitLastLine(line: string)
    requires NoBreak(line)
    ensures SplitLines(line) == [line]
  {
    forall i | 0 <= i ensures !OccursAt(line, "\n", i) {
      OccursOne(line, '\n', i);
    }
    IndexOfMissing(line, "\n", 0);
  }

  // ---------------------------------------------------------------- letters and lists

  function LowerChar(c: char): char {
    if 'A' <= c <= 'Z' then ((c as int) + 32) as char else c
  }

  function Lower(s: string): (r: string)
    ensures |r| == |s| && forall i :: 0 <= i < |s| ==> r[i] == LowerChar(s[i])
  {
    seq(|s|, i requires 0 <= i < |s| => LowerChar(s[i]))
  }

  /** `parts.join(sep)`. */
  function Join(parts: seq<string>, sep: string): string {
    if parts == [] then ""
    else if |parts| == 1 then parts[0]
    else parts[0] + sep + Join(parts[1..], sep)
  }
}
