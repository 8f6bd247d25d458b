/** Reading and printing `key="value"` lists of HTTP digest headers (section 3.2 of RFC 2617,
    section 3.4 of RFC 7616), as src/http/digest-auth-server.ts and
    src/infra/dahua/auth/digest-auth.ts do with regular expressions. */
module DigestText {
  import opened Common

  datatype Field = Field(key: string, value: string, quoted: bool)

  predicate IsAlnum(c: char) { 'a' <= c <= 'z' || 'A' <= c <= 'Z' || '0' <= c <= '9' }

  /** `\w`, the key characters of the client; the server's keys have no underscore. */
  predicate IsWord(c: char) { IsAlnum(c) || c == '_' }

  lemma DigitsSpelledOut(c: char)
    ensures '0' <= c <= '9' <==> exists i :: 0 <= i < 10 && "0123456789"[i] == c
  {
    if '0' <= c <= '9' {
      assert "0123456789"[c as int - '0' as int] == c;
    }
  }

  lemma CapitalsSpelledOut(c: char)
    ensures 'A' <= c <= 'Z' <==> exists i :: 0 <= i < 26 && "ABCDEFGHIJKLMNOPQRSTUVWXYZ"[i] == c
  {
    if 'A' <= c <= 'Z' {
      assert "ABCDEFGHIJKLMNOPQRSTUVWXYZ"[c as int - 'A' as int] == c;
    }
  }

  lemma SmallLettersSpelledOut(c: char)
    ensures 'a' <= c <= 'z' <==> exists i :: 0 <= i < 26 && "abcdefghijklmnopqrstuvwxyz"[i] == c
  {
    if 'a' <= c <= 'z' {
      assert "abcdefghijklmnopqrstuvwxyz"[c as int - 'a' as int] == c;
    }
  }

  /** The key characters are the digits and the letters, and for the client the underscore. */
  lemma KeyCharsSpelledOut(c: char)
    ensures IsWord(c) <==> c == '_' || IsAlnum(c)
    ensures IsAlnum(c) <==>
            || (exists i :: 0 <= i < 10 && "0123456789"[i] == c)
            || (exists i :: 0 <= i < 26 && "ABCDEFGHIJKLMNOPQRSTUVWXYZ"[i] == c)
            || exists i :: 0 <= i < 26 && "abcdefghijklmnopqrstuvwxyz"[i] == c
  {
    DigitsSpelledOut(c);
    CapitalsSpelledOut(c);
    SmallLettersSpelledOut(c);
  }

  type KeyChar = char -> bool

  /** Length of the longest prefix of key characters. */
  function KeyRun(isKey: KeyChar, s: string): (n: nat)
    ensures n <= |s|
  {
    if s != "" && isKey(s[0]) then 1 + KeyRun(isKey, s[1..]) else 0
  }

  /** Characters before the first `c`, all of them if there is none. */
  function Before(s: string, c: char): (n: nat)
    ensures n <= |s|
  {
    if s != "" && s[0] != c then 1 + Before(s[1..], c) else 0
  }

  datatype Match = Match(field: Field, length: nat)

  /** `key=("[^"]*"|[^,]+)` at the start of `s`: a quoted value if its quotation closes, otherwise
      everything up to the next comma. */
  function MatchHead(isKey: KeyChar, s: string): (m: Option<Match>)
    ensures m.Some? ==> 0 < m.value.length <= |s|
  {
    var k := KeyRun(isKey, s);
    if k == 0 || k >= |s| || s[k] != '=' then None
    else MatchValue(s[..k], s[k + 1..])
  }

  function MatchValue(key: string, rest: string): (m: Option<Match>)
    ensures m.Some? ==> |key| + 1 < m.value.length <= |key| + 1 + |rest|
  {
    if rest != "" && rest[0] == '"' && Before(rest[1..], '"') < |rest| - 1 then
      var n := Before(rest[1..], '"');
      Some(Match(Field(key, rest[1..1 + n], true), |key| + 1 + n + 2))
    else
      var n := Before(rest, ',');
      if n == 0 then None else Some(Match(Field(key, rest[..n], false), |key| + 1 + n))
  }

  /** All matches, left to right. */
  function Fields(isKey: KeyChar, s: string): seq<Field>
    decreases |s|
  {
    if s == "" then []
    else match MatchHead(isKey, s)
         case None => Fields(isKey, s[1..])
         case Some(m) => [m.field] + Fields(isKey, s[m.length..])
  }

  // ---------------------------------------------------------------- printing

  function PrintField(f: Field): string {
    f.key + "=" + if f.quoted then "\"" + f.value + "\"" else f.value
  }

  function PrintFields(fs: seq<Field>): string {
    if fs == [] then ""
    else if |fs| == 1 then PrintField(fs[0])
    else PrintField(fs[0]) + ", " + PrintFields(fs[1..])
  }

  predicate Lacks(s: string, c: char) { forall i :: 0 <= i < |s| ==> s[i] != c }

  /** The field can be read back: a key of key characters, and a value that fits its notation. */
  ghost predicate Printable(isKey: KeyChar, f: Field) {
    && f.key != "" && (forall i :: 0 <= i < |f.key| ==> isKey(f.key[i]))
    && (f.quoted ==> Lacks(f.value, '"'))
    && (!f.quoted ==> f.value != "" && f.value[0] != '"' && Lacks(f.value, ','))
  }

  lemma {:induction false} KeyRunOf(isKey: KeyChar, key: string, more: string)
    requires forall i :: 0 <= i < |key| ==> isKey(key[i])
    requires more != "" ==> !isKey(more[0])
    ensures KeyRun(isKey, key + more) == |key|
  {
    if key == "" {
      assert key + more == more;
    } else {
      assert (key + more)[1..] == key[1..] + more;
      KeyRunOf(isKey, key[1..], more);
    }
  }

  lemma {:induction false} BeforeOf(s: string, c: char, more: string)
    requires Lacks(s, c) && (more != "" ==> more[0] == c)
    ensures Before(s + more, c) == |s|
  {
    if s == "" {
      assert s + more == more;
    } else {
      assert (s + more)[1..] == s[1..] + more;
      BeforeOf(s[1..], c, more);
    }
  }

  lemma KeyThenValue(isKey: KeyChar, key: string, rest: string)
    requires key != "" && (forall i :: 0 <= i < |key| ==> isKey(key[i])) && !isKey('=')
    ensures MatchHead(isKey, key + ("=" + rest)) == MatchValue(key, rest)
  {
    var s := key + ("=" + rest);
    KeyRunOf(isKey, key, "=" + rest);
    assert s[..|key|] == key && s[|key| + 1..] == rest;
  }

  lemma QuotedValue(key: string, v: string, more: string)
    requires Lacks(v, '"')
    ensures MatchValue(key, "\"" + v + "\"" + more) == Some(Match(Field(key, v, true), |key| + 1 + |v| + 2))
  {
    var rest := "\"" + v + "\"" + more;
    assert rest[1..] == v + ("\"" + more);
    BeforeOf(v, '"', "\"" + more);
    assert rest[1..1 + |v|] == v;
  }

  lemma PlainValue(key: string, v: string, more: string)
    requires v != "" && v[0] != '"' && Lacks(v, ',') && (more != "" ==> more[0] == ',')
    ensures MatchValue(key, v + more) == Some(Match(Field(key, v, false), |key| + 1 + |v|))
  {
    BeforeOf(v, ',', more);
    assert (v + more)[0] == v[0] && (v + more)[..|v|] == v;
  }

  lemma PrintedQuoted(f: Field, more: string)
    requires f.quoted
    ensures PrintField(f) + more == f.key + ("=" + ("\"" + f.value + "\"" + more))
    ensures |PrintField(f)| == |f.key| + 1 + |f.value| + 2
  {}

  lemma PrintedPlain(f: Field, more: string)
    requires !f.quoted
    ensures PrintField(f) + more == f.key + ("=" + (f.value + more)) && |PrintField(f)| == |f.key| + 1 + |f.value|
  {}

  lemma PrintedFieldMatches(isKey: KeyChar, f: Field, more: string)
    requires Printable(isKey, f) && !isKey('=') && (more != "" ==> more[0] == ',')
    ensures MatchHead(isKey, PrintField(f) + more) == Some(Match(f, |PrintField(f)|))
  {
    if f.quoted {
      PrintedQuoted(f, more);
      KeyThenValue(isKey, f.key, "\"" + f.value + "\"" + more);
      QuotedValue(f.key, f.value, more);
    } else {
      PrintedPlain(f, more);
      KeyThenValue(isKey, f.key, f.value + more);
      PlainValue(f.key, f.value, more);
    }
  }

  lemma FieldThenRest(isKey: KeyChar, f: Field, more: string)
    requires Printable(isKey, f) && !isKey('=') && (more != "" ==> more[0] == ',')
    ensures Fields(isKey, PrintField(f) + more) == [f] + Fields(isKey, more)
  {
    var head := PrintField(f);
    PrintedFieldMatches(isKey, f, more);
    assert (head + more)[|head|..] == more;
  }

  lemma SkipSeparator(isKey: KeyChar, rest: string)
    requires !isKey(',') && !isKey(' ')
    ensures Fields(isKey, ", " + rest) == Fields(isKey, rest)
  {
    var s := ", " + rest;
    assert s[1..] == " " + rest;
    assert (" " + rest)[1..] == rest;
    assert MatchHead(isKey, s) == None;
    assert MatchHead(isKey, " " + rest) == None;
  }

  lemma FieldAlone(isKey: KeyChar, f: Field)
    requires Printable(isKey, f) && !isKey('=')
    ensures Fields(isKey, PrintField(f)) == [f]
  {
    FieldThenRest(isKey, f, "");
    assert PrintField(f) + "" == PrintField(f);
  }

  lemma FieldBefore(isKey: KeyChar, f: Field, rest: string)
    requires Printable(isKey, f) && !isKey('=') && !isKey(',') && !isKey(' ')
    ensures Fields(isKey, PrintField(f) + ", " + rest) == [f] + Fields(isKey, rest)
  {
    FieldThenRest(isKey, f, ", " + rest);
    assert PrintField(f) + ", " + rest == PrintField(f) + (", " + rest);
    SkipSeparator(isKey, rest);
  }

  /** What is printed is read back field by field. */
  lemma {:induction false} PrintThenRead(isKey: KeyChar, fs: seq<Field>)
    requires forall i :: 0 <= i < |fs| ==> Printable(isKey, fs[i])
    requires !isKey('=') && !isKey(',') && !isKey(' ')
    ensures Fields(isKey, PrintFields(fs)) == fs
  {
    if |fs| == 1 {
      FieldAlone(isKey, fs[0]);
    } else if |fs| > 1 {
      PrintThenRead(isKey, fs[1..]);
      FieldBefore(isKey, fs[0], PrintFields(fs[1..]));
      assert fs == [fs[0]] + fs[1..];
    }
  }

  // ---------------------------------------------------------------- the record built from the fields

  /** Later fields overwrite earlier ones of the same key. */
  function RecordOf(view: Field -> string, fs: seq<Field>): map<string, string> {
    if fs == [] then map[]
    else RecordOf(view, fs[..|fs| - 1])[fs[|fs| - 1].key := view(fs[|fs| - 1])]
  }

  lemma {:induction false} RecordHolds(view: Field -> string, fs: seq<Field>, i: nat)
    requires i < |fs| && forall j :: i < j < |fs| ==> fs[j].key != fs[i].key
    ensures fs[i].key in RecordOf(view, fs) && RecordOf(view, fs)[fs[i].key] == view(fs[i])
  {
    if i < |fs| - 1 {
      RecordHolds(view, fs[..|fs| - 1], i);
    }
  }

  lemma RecordMore(view: Field -> string, fs: seq<Field>, f: Field)
    ensures RecordOf(view, fs + [f]) == RecordOf(view, fs)[f.key := view(f)]
  {
    assert (fs + [f])[..|fs|] == fs;
  }

  lemma HeadField(isKey: KeyChar, rest: string)
    requires rest != ""
    ensures match MatchHead(isKey, rest)
            case None => Fields(isKey, rest) == Fields(isKey, rest[1..])
            case Some(m) => 0 < m.length <= |rest| && Fields(isKey, rest) == [m.field] + Fields(isKey, rest[m.length..])
  {}

  lemma MoveOver<T>(whole: seq<T>, done: seq<T>, x: T, tail: seq<T>)
    requires whole == done + ([x] + tail)
    ensures whole == (done + [x]) + tail
  {}

  method ReadRecord(isKey: KeyChar, view: Field -> string, input: string) returns (out: map<string, string>)
    ensures out == RecordOf(view, Fields(isKey, input))
  {
    out := map[];
    var rest := input;
    ghost var fields, done := Fields(isKey, input), [];
    while rest != ""
      invariant fields == done + Fields(isKey, rest)
      invariant out == RecordOf(view, done)
      decreases |rest|
    {
      HeadField(isKey, rest);
      var m := MatchHead(isKey, rest);
      match m
      case None =>
        rest := rest[1..];
      case Some(found) =>
        MoveOver(fields, done, found.field, Fields(isKey, rest[found.length..]));
        RecordMore(view, done, found.field);
        out := out[found.field.key := view(found.field)];
        done := done + [found.field];
        rest := rest[found.length..];
    }
    assert done + [] == done;
  }
}
