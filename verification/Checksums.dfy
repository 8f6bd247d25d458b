/** The checksum list of a backup bundle (src/ops/backup/backup-checksums.ts): writing it, reading it
    back, and comparing it with the files present. The hash is a parameter. */
module Checksums {
  import opened Common
  import opened Text

  datatype Entry = Entry(hash: string, path: string)

  // ---------------------------------------------------------------- text form

  function Line(e: Entry): string { e.hash + "  " + e.path }

  function LinesOf(es: seq<Entry>): seq<string> {
    seq(|es|, i requires 0 <= i < |es| => Line(es[i]))
  }

  function Format(es: seq<Entry>): string { Join(LinesOf(es), "\n") + "\n" }

  predicate IsHexDigit(c: char) { '0' <= c <= '9' || 'a' <= c <= 'f' }

  /** Matched by `.` in a regular expression. */
  predicate NoTerminator(s: string) {
    forall i :: 0 <= i < |s| ==> s[i] != '\n' && s[i] != '\r' && s[i] != '\U{2028}' && s[i] != '\U{2029}'
  }

  predicate IsHash(s: string) { |s| == 64 && forall i :: 0 <= i < |s| ==> IsHexDigit(s[i]) }

  /** `/^([a-f0-9]{64})  (.+)$/`. */
  function ParseLine(line: string): Option<Entry> {
    if |line| > 66 && IsHash(line[..64]) && line[64] == ' ' && line[65] == ' ' && NoTerminator(line[66..])
    then Some(Entry(line[..64], line[66..]))
    else None
  }

  /** Entries of the non-empty lines; None when one of them is not an entry. */
  function ParseLines(lines: seq<string>): Option<seq<Entry>> {
    if lines == [] then Some([])
    else if lines[0] == "" then ParseLines(lines[1..])
    else match ParseLine(lines[0])
         case None => None
         case Some(e) => match ParseLines(lines[1..]) case None => None case Some(es) => Some([e] + es)
  }

  function Parse(text: string): Option<seq<Entry>> { ParseLines(SplitLines(Trim(text))) }

  /** A path that survives the text form: not empty, no line terminator, no white space at its ends. */
  predicate CleanPath(p: string) { p != "" && NoTerminator(p) && Trimmed(p) }

  ghost predicate CleanEntries(es: seq<Entry>) {
    forall i :: 0 <= i < |es| ==> IsHash(es[i].hash) && CleanPath(es[i].path)
  }

  lemma LineReadBack(e: Entry)
    requires IsHash(e.hash) && CleanPath(e.path)
    ensures ParseLine(Line(e)) == Some(e) && Line(e) != "" && Trimmed(Line(e))
    ensures forall i :: 0 <= i < |Line(e)| ==> Line(e)[i] != '\n' && Line(e)[i] != '\r'
  {
    var line := Line(e);
    assert line[..64] == e.hash && line[66..] == e.path;
    forall i | 0 <= i < |line| ensures line[i] != '\n' && line[i] != '\r' {
      if i < 64 { assert IsHexDigit(e.hash[i]); } else if i >= 66 { assert line[i] == e.path[i - 66]; }
    }
    assert line[0] == e.hash[0] && line[|line| - 1] == e.path[|e.path| - 1];
  }

  lemma HexDigitsSpelledOut(c: char)
    ensures IsHexDigit(c) <==> exists i :: 0 <= i < 16 && "0123456789abcdef"[i] == c
  {
    var digits := "0123456789abcdef";
    if '0' <= c <= '9' {
      assert digits[c as int - '0' as int] == c;
    } else if 'a' <= c <= 'f' {
      assert digits[c as int - 'a' as int + 10] == c;
    }
  }

  lemma HashSpelledOut(s: string)
    ensures IsHash(s) <==> |s| == 64 && forall c :: c in s ==> exists i :: 0 <= i < 16 && "0123456789abcdef"[i] == c
  {
    forall c ensures IsHexDigit(c) <==> exists i :: 0 <= i < 16 && "0123456789abcdef"[i] == c {
      HexDigitsSpelledOut(c);
    }
    if forall c :: c in s ==> IsHexDigit(c) {
      assert forall i :: 0 <= i < |s| ==> s[i] in s;
    }
  }

  lemma TerminatorsSpelledOut(s: string)
    ensures NoTerminator(s) <==> forall c :: c in s ==> c != '\n' && c != '\r' && c != '\U{2028}' && c != '\U{2029}'
  {
    assert forall i :: 0 <= i < |s| ==> s[i] in s;
  }

  lemma LineCut(line: string)
    requires |line| > 66 && line[64] == ' ' && line[65] == ' '
    ensures line == line[..64] + "  " + line[66..]
  {}

  /** A line is an entry exactly when it is 64 lower-case hexadecimal digits, two spaces and a path in one line. */
  lemma LineReadExactly(line: string, e: Entry)
    ensures ParseLine(line) == Some(e) <==>
            && line == e.hash + "  " + e.path && |e.hash| == 64 && e.path != ""
            && (forall c :: c in e.hash ==> exists i :: 0 <= i < 16 && "0123456789abcdef"[i] == c)
            && forall c :: c in e.path ==> c != '\n' && c != '\r' && c != '\U{2028}' && c != '\U{2029}'
  {
    HashSpelledOut(e.hash);
    TerminatorsSpelledOut(e.path);
    if ParseLine(line) == Some(e) {
      LineCut(line);
    }
    if line == e.hash + "  " + e.path && |e.hash| == 64 {
      assert line[..64] == e.hash && line[66..] == e.path;
    }
  }

  lemma {:induction false} JoinedLines(es: seq<Entry>)
    requires es != [] && CleanEntries(es)
    ensures var text := Join(LinesOf(es), "\n");
            text != "" && Trimmed(text) && SplitLines(text) == LinesOf(es)
  {
    var line := Line(es[0]);
    LineReadBack(es[0]);
    if |es| == 1 {
      assert LinesOf(es) == [line];
      SplitLastLine(line);
    } else {
      var rest := es[1..];
      JoinedLines(rest);
      assert LinesOf(es) == [line] + LinesOf(rest);
      assert LinesOf(es)[1..] == LinesOf(rest);
      var more := Join(LinesOf(rest), "\n");
      var text := line + "\n" + more;
      SplitAtBreak(line, more);
      assert StripCr(line) == line;
      assert text[0] == line[0] && text[|text| - 1] == more[|more| - 1];
    }
  }

  lemma {:induction false} LinesParseBack(es: seq<Entry>)
    requires CleanEntries(es)
    ensures ParseLines(LinesOf(es)) == Some(es)
  {
    if es != [] {
      LineReadBack(es[0]);
      assert LinesOf(es)[1..] == LinesOf(es[1..]);
      LinesParseBack(es[1..]);
      assert es == [es[0]] + es[1..];
    }
  }

  /** Reading back what was written gives the same entries in the same order. */
  lemma FormatThenParse(es: seq<Entry>)
    requires CleanEntries(es)
    ensures Parse(Format(es)) == Some(es)
  {
    if es == [] {
      assert Format(es) == "\n";
      assert TrimStart("\n") == TrimStart("\n"[1..]) == "";
      SplitLastLine("");
      assert [""][1..] == [];
    } else {
      JoinedLines(es);
      var text := Join(LinesOf(es), "\n");
      TrimPadded("", text, "\n");
      assert "" + text + "\n" == Format(es);
      LinesParseBack(es);
    }
  }

  // ---------------------------------------------------------------- comparing with the files present

  /** Hash of the file at a relative path, None when there is none. */
  type Hashes = string -> Option<string>

  predicate Mentioned(es: seq<Entry>, p: string) {
    exists j :: 0 <= j < |es| && es[j].path == p
  }

  /** The three checks of `verifyChecksums`, given the entries and the listed paths. */
  predicate Agrees(es: seq<Entry>, files: seq<string>, hashes: Hashes) {
    && |es| == |files|
    && (forall i :: 0 <= i < |files| ==> Mentioned(es, files[i]))
    && (forall j :: 0 <= j < |es| ==> hashes(es[j].path) == Some(es[j].hash))
  }

  function Paths(es: seq<Entry>): seq<string> {
    seq(|es|, i requires 0 <= i < |es| => es[i].path)
  }

  /** Equal counts and every file listed leave no room for a repeated or a foreign entry. */
  lemma AgreementIsBijection(es: seq<Entry>, files: seq<string>, hashes: Hashes)
    requires Distinct(files) && Agrees(es, files, hashes)
    ensures Distinct(Paths(es)) && Elements(Paths(es)) == Elements(files)
  {
    var ps := Paths(es);
    DistinctCardinality(files);
    forall f | f in files ensures f in ps {
      var i :| 0 <= i < |files| && files[i] == f;
      assert Mentioned(es, files[i]);
      var j :| 0 <= j < |es| && es[j].path == files[i];
      assert ps[j] == f;
    }
    assert Elements(files) <= Elements(ps);
    FewerThanPositions(ps);
    SubsetCardinality(Elements(files), Elements(ps));
    FullCardinalityIsDistinct(ps);
  }

  lemma {:induction false} FewerThanPositions<T>(s: seq<T>)
    ensures |Elements(s)| <= |s|
  {
    if s != [] {
      FewerThanPositions(s[1..]);
      assert s == [s[0]] + s[1..];
      assert Elements(s) == Elements(s[1..]) + {s[0]};
    } else {
      assert Elements(s) == {};
    }
  }

  lemma {:induction false} FullCardinalityIsDistinct<T>(s: seq<T>)
    requires |Elements(s)| == |s|
    ensures Distinct(s)
  {
    if s != [] {
      var rest := s[1..];
      assert s == [s[0]] + rest;
      assert Elements(s) == Elements(rest) + {s[0]};
      FewerThanPositions(rest);
      assert s[0] in rest ==> Elements(s) == Elements(rest);
      FullCardinalityIsDistinct(rest);
      forall i, j | 0 <= i < j < |s| ensures s[i] != s[j] {
        assert s[j] == rest[j - 1];
        if i > 0 { assert s[i] == rest[i - 1]; }
      }
    }
  }

  // ---------------------------------------------------------------- exactness over an inventory

  ghost predicate Lists<C>(files: seq<string>, inv: map<string, C>) {
    Distinct(files) && Elements(files) == inv.Keys
  }

  function HashesOf<C>(sha: C -> string, inv: map<string, C>): Hashes {
    (p: string) => if p in inv then Some(sha(inv[p])) else None
  }

  function EntriesFor<C>(sha: C -> string, files: seq<string>, inv: map<string, C>): seq<Entry>
    requires forall i :: 0 <= i < |files| ==> files[i] in inv
  {
    seq(|files|, i requires 0 <= i < |files| => Entry(sha(inv[files[i]]), files[i]))
  }

  /** The text of `checksums.txt` passes against the files listed. */
  predicate Passes<C>(text: string, files: seq<string>, sha: C -> string, inv: map<string, C>) {
    Parse(text).Some? && Agrees(Parse(text).value, files, HashesOf(sha, inv))
  }

  ghost predicate HashTexts<C(!new)>(sha: C -> string) { forall c :: IsHash(sha(c)) }

  ghost predicate CleanPaths<C>(inv: map<string, C>) { forall p :: p in inv ==> CleanPath(p) }

  lemma WrittenEntriesAreClean<C(!new)>(sha: C -> string, files: seq<string>, inv: map<string, C>)
    requires HashTexts(sha) && CleanPaths(inv) && forall i :: 0 <= i < |files| ==> files[i] in inv
    ensures CleanEntries(EntriesFor(sha, files, inv))
  {}

  /** Main result: a list written for one inventory passes against another exactly when every path has
      the same hash in both, in whatever order either was listed. */
  lemma VerificationIsExact<C(!new)>(sha: C -> string, written: seq<string>, inv: map<string, C>,
                                     listed: seq<string>, inv': map<string, C>)
    requires HashTexts(sha) && CleanPaths(inv) && Lists(written, inv) && Lists(listed, inv')
    ensures (forall i :: 0 <= i < |written| ==> written[i] in inv)
    ensures Passes(Format(EntriesFor(sha, written, inv)), listed, sha, inv') <==>
            inv'.Keys == inv.Keys && forall p :: p in inv ==> sha(inv'[p]) == sha(inv[p])
  {
    forall i | 0 <= i < |written| ensures written[i] in inv { assert written[i] in Elements(written); }
    var es := EntriesFor(sha, written, inv);
    WrittenEntriesAreClean(sha, written, inv);
    FormatThenParse(es);
    assert Paths(es) == written;
    if Agrees(es, listed, HashesOf(sha, inv')) {
      AgreementIsBijection(es, listed, HashesOf(sha, inv'));
      forall p | p in inv ensures p in inv' && sha(inv'[p]) == sha(inv[p]) {
        assert p in Elements(written);
        var j :| 0 <= j < |written| && written[j] == p;
        assert es[j].path == p && HashesOf(sha, inv')(es[j].path) == Some(es[j].hash);
      }
    }
    if inv'.Keys == inv.Keys && forall p :: p in inv ==> sha(inv'[p]) == sha(inv[p]) {
      SameSetAgrees(sha, written, inv, listed, inv');
    }
  }

  lemma SameSetAgrees<C(!new)>(sha: C -> string, written: seq<string>, inv: map<string, C>,
                               listed: seq<string>, inv': map<string, C>)
    requires Lists(written, inv) && Lists(listed, inv')
    requires forall i :: 0 <= i < |written| ==> written[i] in inv
    requires inv'.Keys == inv.Keys && forall p :: p in inv ==> sha(inv'[p]) == sha(inv[p])
    ensures Agrees(EntriesFor(sha, written, inv), listed, HashesOf(sha, inv'))
  {
    var es := EntriesFor(sha, written, inv);
    DistinctCardinality(written);
    DistinctCardinality(listed);
    forall i | 0 <= i < |listed| ensures Mentioned(es, listed[i]) {
      assert listed[i] in Elements(listed);
      assert listed[i] in Elements(written);
      var j :| 0 <= j < |written| && written[j] == listed[i];
      assert es[j].path == listed[i];
    }
    forall j | 0 <= j < |es| ensures HashesOf(sha, inv')(es[j].path) == Some(es[j].hash) {
      assert written[j] in inv;
    }
  }

  /** With a hash that does not confuse a file's old and new content, any added, removed or edited file is
      rejected. */
  lemma AnyChangeIsRejected<C(!new)>(sha: C -> string, written: seq<string>, inv: map<string, C>,
                                     listed: seq<string>, inv': map<string, C>)
    requires HashTexts(sha) && CleanPaths(inv) && Lists(written, inv) && Lists(listed, inv')
    requires forall p :: p in inv && p in inv' && sha(inv'[p]) == sha(inv[p]) ==> inv'[p] == inv[p]
    ensures (forall i :: 0 <= i < |written| ==> written[i] in inv)
    ensures Passes(Format(EntriesFor(sha, written, inv)), listed, sha, inv') <==> inv' == inv
  {
    VerificationIsExact(sha, written, inv, listed, inv');
  }

  // ---------------------------------------------------------------- the two loops

  datatype Failure = CountMismatch | EntryMissing(path: string) | HashMismatch(path: string) | InvalidList

  method WriteChecksums<C>(sha: C -> string, files: seq<string>, inv: map<string, C>) returns (text: string)
    requires forall i :: 0 <= i < |files| ==> files[i] in inv
    ensures text == Format(EntriesFor(sha, files, inv))
  {
    var lines: seq<string> := [];
    for i := 0 to |files|
      invariant lines == LinesOf(EntriesFor(sha, files, inv))[..i]
    {
      var hash := sha(inv[files[i]]);
      lines := lines + [hash + "  " + files[i]];
    }
    text := Join(lines, "\n") + "\n";
    assert lines == LinesOf(EntriesFor(sha, files, inv));
  }

  method FirstMissing(es: seq<Entry>, files: seq<string>) returns (r: Option<string>)
    ensures r.None? <==> forall i :: 0 <= i < |files| ==> Mentioned(es, files[i])
  {
    for i := 0 to |files|
      invariant forall k :: 0 <= k < i ==> Mentioned(es, files[k])
    {
      if !Mentioned(es, files[i]) {
        return Some(files[i]);
      }
    }
    r := None;
  }

  method FirstMismatch<C>(sha: C -> string, es: seq<Entry>, inv: map<string, C>) returns (r: Option<string>)
    ensures r.None? <==> forall j :: 0 <= j < |es| ==> HashesOf(sha, inv)(es[j].path) == Some(es[j].hash)
  {
    ghost var hashes := HashesOf(sha, inv);
    for j := 0 to |es|
      invariant forall k :: 0 <= k < j ==> hashes(es[k].path) == Some(es[k].hash)
    {
      assert hashes(es[j].path) == if es[j].path in inv then Some(sha(inv[es[j].path])) else None;
      if es[j].path !in inv || sha(inv[es[j].path]) != es[j].hash {
        return Some(es[j].path);
      }
    }
    r := None;
  }

  method VerifyChecksums<C>(sha: C -> string, text: string, files: seq<string>, inv: map<string, C>)
    returns (r: Option<Failure>)
    ensures r.None? <==> Passes(text, files, sha, inv)
  {
    var parsed := Parse(text);
    if parsed.None? {
      return Some(InvalidList);
    }
    if |parsed.value| != |files| {
      return Some(CountMismatch);
    }
    var path := FirstMissing(parsed.value, files);
    if path.Some? {
      return Some(EntryMissing(path.value));
    }
    path := FirstMismatch(sha, parsed.value, inv);
    r := if path.Some? then Some(HashMismatch(path.value)) else None;
  }
}
