// Which fields a header holds: what every line of it, however it is written,
// contributes, and under which name it is found.
module HttpLookup {
  import opened Basics
  import opened Text
  import opened StringUtil
  import opened Decimal
  import opened HttpHeader
  import opened HttpRoundTrip

  /** No capital in it. */
  predicate Lowercase(s: string) {
    forall i :: 0 <= i < |s| ==> !('A' <= s[i] <= 'Z')
  }

  /** s is name with any of its letters written as capitals. */
  predicate Casing(s: string, name: string) {
    |s| == |name|
    && forall i :: 0 <= i < |s| ==> s[i] == name[i] || ('A' <= s[i] <= 'Z' && s[i] as int + 32 == name[i] as int)
  }

  /** tolower on every byte. */
  lemma {:induction false} LowerIs(s: string)
    ensures |Lower(s)| == |s| && Lowercase(Lower(s))
    ensures forall i :: 0 <= i < |s| ==>
              Lower(s)[i] as int == s[i] as int + if 'A' <= s[i] <= 'Z' then 32 else 0
  {
    if s != [] {
      LowerIs(s[1..]);
    }
  }

  lemma LowerIff(s: string, name: string)
    requires Lowercase(name)
    ensures Lower(s) == name <==> Casing(s, name)
  {
    hide Lower;
    LowerIs(s);
    var l := Lower(s);
    if Casing(s, name) {
      forall i | 0 <= i < |s| ensures l[i] == name[i] {
        assert !('A' <= name[i] <= 'Z');
      }
    }
  }

  /** The key is a casing of name, between blanks. */
  ghost predicate Names(key: string, name: string) {
    exists a: nat, b: nat :: Core(key, a, b) && Casing(key[a..b], name)
  }

  /** The text is val, between blanks. */
  ghost predicate Carries(text: string, val: string) {
    exists a: nat, b: nat :: Core(text, a, b) && text[a..b] == val
  }

  lemma NamesIff(key: string, name: string)
    requires Lowercase(name)
    ensures Lower(Trim(key)) == name <==> Names(key, name)
  {
    hide Trim, Casing;
    var a, b := TrimTakesBlanks(key);
    LowerIff(Trim(key), name);
    if c: nat, d: nat :| Core(key, c, d) && Casing(key[c..d], name) {
      TrimIs(key, c, d);
    }
  }

  lemma CarriesIff(text: string, val: string)
    ensures Trim(text) == val <==> Carries(text, val)
  {
    hide Trim;
    var a, b := TrimTakesBlanks(text);
    if c: nat, d: nat :| Core(text, c, d) && text[c..d] == val {
      TrimIs(text, c, d);
    }
  }

  /** The line has a key and a value that is not empty, and they are these. */
  ghost predicate Says(line: string, name: string, val: string) {
    exists key, value ::
      line == key + ":" + value && ':' !in key && value != [] && Names(key, name) && Carries(value, val)
  }

  lemma LineIs(key: string, value: string)
    requires ':' !in key
    ensures LineFields(key + ":" + value) == if value == [] then [] else [Field(Lower(Trim(key)), Trim(value))]
  {
    hide Trim, Lower, FindFirstOf;
    var line := key + ":" + value;
    assert line[|key|] == ':' && forall j :: 0 <= j < |key| ==> line[j] == key[j];
    FindFirstOfIs(line, {':'}, 0, |key|);
    assert line[..|key|] == key && line[|key| + 1..] == value;
  }

  /** Where a line is cut in two. */
  lemma LineCut(line: string) returns (key: string, value: string)
    ensures LineFields(line) != [] ==> line == key + ":" + value && ':' !in key && value != []
  {
    var colon := FindFirstOf(line, {':'}, 0);
    key, value := [], [];
    if colon + 1 < |line| {
      key, value := line[..colon], line[colon + 1..];
      assert line == key + [line[colon]] + value;
    }
  }

  /** A field is found in a line under a lower-case name if and only if the line says so;
      under any other name nothing is found. */
  lemma SaysIff(line: string, name: string, val: string)
    ensures Field(name, val) in LineFields(line) <==> Lowercase(name) && Says(line, name, val)
  {
    hide Trim, Lower, LineFields, Names, Carries;
    var key, value := LineCut(line);
    if LineFields(line) != [] {
      LineIs(key, value);
      LowerIs(Trim(key));
      if Lowercase(name) { NamesIff(key, name); }
      CarriesIff(value, val);
    }
    if Lowercase(name) && Says(line, name, val) {
      var k, v :| line == k + ":" + v && ':' !in k && v != [] && Names(k, name) && Carries(v, val);
      LineIs(k, v);
      NamesIff(k, name);
      CarriesIff(v, val);
    }
  }

  // ---------------------------------------------------------------------
  // Whole headers
  // ---------------------------------------------------------------------

  /** A first line, any further lines, and the blank line. */
  function HeaderOf(first: string, ls: seq<string>): string {
    Lines([first] + ls) + CRLF
  }

  function FieldsOf(ls: seq<string>): seq<Field> {
    if ls == [] then [] else LineFields(ls[0]) + FieldsOf(ls[1..])
  }

  lemma {:induction false} LinesAreRead(ls: seq<string>)
    requires PlainLines(ls)
    ensures ParseFields(Lines(ls) + CRLF, 0) == FieldsOf(ls)
  {
    hide LineFields;
    if ls == [] {
      assert [] + CRLF == [] + CRLF + [];
      ParseOneLine([], []);
      EmptyLine();
      NothingAfterTheEnd([], 0);
    } else {
      assert PlainLine(ls[0]);
      LinesAreRead(ls[1..]);
      Regroup(ls[0] + CRLF, Lines(ls[1..]), CRLF);
      ParseOneLine(ls[0], Lines(ls[1..]) + CRLF);
    }
  }

  /** The whole text: where it ends, where its first line ends, and its fields. */
  lemma HeaderIsRead(first: string, ls: seq<string>)
    requires PlainLine(first) && |HeaderOf(first, ls)| >= 9 && PlainLines(ls)
    ensures var text := HeaderOf(first, ls);
            && HeaderLength(text) == |text| && text[..|text|] == text && |first| < |text|
            && Find(text, CRLF) == |first| && text[..|first|] == first
            && ParseFields(text, |first|) == FieldsOf(ls)
  {
    hide LineFields, FindFirstOf, ParseFields, FieldsOf;
    var text, rest := HeaderOf(first, ls), Lines(ls) + CRLF;
    BlankLineIsLast([first] + ls);
    FindIs(text, BLANK_LINE, |text| - 4);
    assert ([first] + ls)[1..] == ls;
    Regroup(first + CRLF, Lines(ls), CRLF);
    LinesAreRead(ls);
    FirstCrlf(first, rest);
    SkipFirstLine(first, rest);
  }

  lemma LongEnough(first: string, ls: seq<string>)
    ensures |HeaderOf(first, ls)| >= |first| + 4
  {
    assert ([first] + ls)[0] == first;
  }

  lemma {:induction false} FieldsOfIff(ls: seq<string>, name: string, val: string)
    requires Lowercase(name)
    ensures Field(name, val) in FieldsOf(ls) <==> exists k :: 0 <= k < |ls| && Says(ls[k], name, val)
  {
    hide LineFields, Says;
    if ls != [] {
      var tail := ls[1..];
      SaysIff(ls[0], name, val);
      FieldsOfIff(tail, name, val);
      assert Field(name, val) in FieldsOf(ls)
             <==> Field(name, val) in LineFields(ls[0]) || Field(name, val) in FieldsOf(tail);
      if k :| 0 <= k < |ls| && Says(ls[k], name, val) {
        if k > 0 { assert tail[k - 1] == ls[k]; }
      }
      if k :| 0 <= k < |tail| && Says(tail[k], name, val) {
        assert ls[k + 1] == tail[k];
      }
    }
  }

  /** A request of any header lines is read as what its first line says, and a value is
      found under a lower-case name if and only if some line gives it to any casing of the name. */
  lemma RequestFieldFoundIff(version: Version, action: string, uri: string, ls: seq<string>, name: string, val: string)
    requires CleanWord(action) && CleanWord(uri) && PlainLines(ls) && Lowercase(name)
    ensures var text := HeaderOf(RequestLine(version, action, uri), ls);
            var p := ParseRequest(text);
            && p == Parsed(|text|, version, action, uri, FieldsOf(ls))
            && (Field(name, val) in p.fields <==> exists k :: 0 <= k < |ls| && Says(ls[k], name, val))
  {
    hide HeaderOf, RequestLine, Pieces, ParseFields, FieldsOf;
    RequestLineSplits(version, action, uri);
    LongEnough(RequestLine(version, action, uri), ls);
    HeaderIsRead(RequestLine(version, action, uri), ls);
    FieldsOfIff(ls, name, val);
  }

  /** The same of a response. */
  lemma ResponseFieldFoundIff(version: Version, status: int, ls: seq<string>, name: string, val: string)
    requires INT_MIN <= status <= INT_MAX && PlainLines(ls) && Lowercase(name)
    ensures var text := HeaderOf(StatusLine(version, status), ls);
            var p := ParseResponse(text);
            && p == Response(|text|, version, status, FieldsOf(ls))
            && (Field(name, val) in p.fields <==> exists k :: 0 <= k < |ls| && Says(ls[k], name, val))
  {
    hide HeaderOf, StatusLine, ParseFields, FieldsOf, StatusMessage, Atoi, IntText;
    var first := StatusLine(version, status);
    var text := HeaderOf(first, ls);
    StatusLineIsPlain(version, status);
    LongEnough(first, ls);
    HeaderIsRead(first, ls);
    var rest := text[|first|..];
    assert text == first + rest;
    StatusTail(version, status, rest);
    assert FindFirstNotOf(first, {' '}, 8) == 9;
    AtoiOfIntText(status, " " + StatusMessage(status) + rest);
    FieldsOfIff(ls, name, val);
  }

  /** A printed field is a line that gives its value to its name. */
  lemma PrintedFieldSays(f: Field, name: string, val: string)
    requires CleanField(f) && Lowercase(name)
    ensures Says(FieldLine(f), name, val) <==> Names(f.key, name) && Carries(f.value, val)
  {
    hide Trim, Lower, LineFields, FieldLine, Says;
    FieldComesBack(f);
    SaysIff(FieldLine(f), name, val);
    NamesIff(f.key, name);
    CarriesIff(f.value, val);
  }

  // ---------------------------------------------------------------------
  // First lines
  // ---------------------------------------------------------------------

  lemma {:induction false} JoinIsPlain(words: seq<string>)
    requires words != [] && forall w :: w in words ==> IsPiece(w, {' '}) && Free(w, EOLS)
    ensures PlainLine(Join(words, ' '))
  {
    assert words[0] in words && IsPiece(words[0], {' '}) && Free(words[0], EOLS);
    if |words| > 1 { JoinIsPlain(words[1..]); }
  }

  /** A header is a request exactly when its first line is three words of which the last
      is a version. Otherwise it is malformed, or of an unknown version, and one of under
      nine bytes is never complete. */
  lemma RequestLineDecides(words: seq<string>, ls: seq<string>)
    requires words != [] && forall w :: w in words ==> IsPiece(w, {' '}) && Free(w, EOLS)
    requires PlainLines(ls)
    ensures var text := HeaderOf(Join(words, ' '), ls);
            ParseRequest(text) == if |text| < 9 then Incomplete
                                  else if |words| != 3 then Malformed
                                  else if words[2] == "HTTP/1.0" then
                                    Parsed(|text|, Http10, words[0], words[1], FieldsOf(ls))
                                  else if words[2] == "HTTP/1.1" then
                                    Parsed(|text|, Http11, words[0], words[1], FieldsOf(ls))
                                  else BadVersion(words[0], words[1])
  {
    hide HeaderOf, Join, Pieces, ParseFields, FieldsOf, IsPiece;
    JoinIsPlain(words);
    SplitUndoesJoin(words, ' ');
    var text := HeaderOf(Join(words, ' '), ls);
    if |text| >= 9 { HeaderIsRead(Join(words, ' '), ls); }
  }

  /** A response's first line is a version, blanks and a number, the blanks being optional;
      behind the number the line may say anything. */
  lemma StatusLineDecides(version: Version, gap: string, status: int, rest: string, ls: seq<string>)
    requires Only(gap, {' '}) && INT_MIN <= status <= INT_MAX && Free(rest, EOLS) && PlainLines(ls)
    requires rest == [] || !IsDigit(rest[0])
    ensures var text := HeaderOf(VersionText(version) + gap + (IntText(status) + rest), ls);
            ParseResponse(text) == Response(|text|, version, status, FieldsOf(ls))
  {
    hide HeaderOf, ParseFields, FieldsOf, Atoi, IntText, VersionText;
    var head, tail := VersionText(version) + gap, IntText(status) + rest;
    var first := head + tail;
    StatusIsPlain(version, gap, status, rest);
    var text := HeaderOf(first, ls);
    LongEnough(first, ls);
    HeaderIsRead(first, ls);
    var more := text[|first|..];
    StartsWithCrlf(first, ls);
    assert text[..|first|] == first;
    assert text == first + more;
    Behind(head, IntText(status), rest, more);
    AtoiOfIntText(status, rest + more);
    StatusStarts(first, version, gap, tail);
    assert text[..8] == first[..8];
    VersionIs(version);
  }

  lemma Behind(head: string, number: string, rest: string, more: string)
    ensures (head + (number + rest) + more)[|head|..] == number + (rest + more)
  {
  }

  lemma VersionIs(version: Version)
    ensures |VersionText(version)| == 8 && (version == Http10 <==> VersionText(version) == "HTTP/1.0")
    ensures version == Http11 <==> VersionText(version) == "HTTP/1.1"
  {
    assert VersionText(Http10)[7] != VersionText(Http11)[7];
  }

  lemma StatusStarts(first: string, version: Version, gap: string, tail: string)
    requires first == VersionText(version) + gap + tail && Only(gap, {' '}) && tail != [] && tail[0] != ' '
    ensures first[..8] == VersionText(version) && FindFirstNotOf(first, {' '}, 8) == 8 + |gap|
  {
    assert forall j :: 8 <= j < 8 + |gap| ==> first[j] == gap[j - 8];
    assert first[8 + |gap|] == tail[0];
  }

  lemma StatusIsPlain(version: Version, gap: string, status: int, rest: string)
    requires Only(gap, {' '}) && Free(rest, EOLS)
    ensures PlainLine(VersionText(version) + gap + (IntText(status) + rest))
    ensures IntText(status) != [] && IntText(status)[0] != ' ' && |VersionText(version)| == 8
  {
    NatTextIsDigits(if status < 0 then -status else status);
    var v, number := VersionText(version), IntText(status);
    assert Free(v, EOLS) && Free(number, EOLS) && Free(gap, EOLS);
    hide *;
    FreeConcat(v, gap);
    FreeConcat(number, rest);
    FreeConcat(v + gap, number + rest);
  }

  lemma FreeConcat(a: string, b: string)
    requires Free(a, EOLS) && Free(b, EOLS)
    ensures Free(a + b, EOLS)
  {
  }

  lemma StartsWithCrlf(first: string, ls: seq<string>)
    requires |first| < |HeaderOf(first, ls)|
    ensures HeaderOf(first, ls)[|first|] == '\r'
  {
    assert ([first] + ls)[0] == first;
  }

  /** A header is rejected as a response exactly when its first line does not begin with
      a version, or has nothing but blanks behind it. */
  lemma ResponseRejectedIff(first: string, ls: seq<string>, version: Version)
    requires PlainLine(first) && PlainLines(ls) && |HeaderOf(first, ls)| >= 9
    ensures var text := HeaderOf(first, ls);
            && (ParseResponse(text) == UnknownVersion <==> !("HTTP/1.0" <= first) && !("HTTP/1.1" <= first))
            && (ParseResponse(text) == NoStatus(version)
                <==> VersionText(version) <= first && Only(first[8..], {' '}))
  {
    hide HeaderOf, ParseFields, FieldsOf, Atoi, VersionText;
    VersionIs(version);
    assert "HTTP/1.0"[7] != "HTTP/1.1"[7];
    var text := HeaderOf(first, ls);
    HeaderIsRead(first, ls);
    StartsWithCrlf(first, ls);
    if |first| < 8 {
      assert text[..8][|first|] == '\r';
    } else {
      assert text[..8] == first[..8];
      var next := FindFirstNotOf(first, {' '}, 8);
      if next < |first| {
        assert first[8..][next - 8] == first[next];
      } else {
        assert forall j :: 0 <= j < |first| - 8 ==> first[8..][j] == first[8 + j];
      }
    }
  }
}
