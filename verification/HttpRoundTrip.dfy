// What reading a header does with what writing a header produced, and what more
// input can and cannot change about a header already read.
module HttpRoundTrip {
  import opened Basics
  import opened Text
  import opened StringUtil
  import opened Decimal
  import opened HttpHeader

  /** Usable as method or target: nonempty, and free of what delimits the first line. */
  predicate CleanWord(s: string) {
    s != [] && Free(s, {' ', '\r', '\n', NUL})
  }

  predicate CleanField(f: Field) {
    Free(f.key, {':', '\r', '\n', NUL}) && Free(f.value, {'\r', '\n', NUL})
  }

  predicate Clean(order: seq<Field>) {
    forall i :: 0 <= i < |order| ==> CleanField(order[i])
  }

  /** How a field comes back: lower-case trimmed key, trimmed value. */
  function Normal(f: Field): Field {
    Field(Lower(Trim(f.key)), Trim(f.value))
  }

  function NormalAll(order: seq<Field>): seq<Field> {
    if order == [] then [] else [Normal(order[0])] + NormalAll(order[1..])
  }

  // ---------------------------------------------------------------------
  // Lines
  // ---------------------------------------------------------------------

  predicate PlainLine(l: string) {
    l != [] && Free(l, EOLS)
  }

  predicate PlainLines(ls: seq<string>) {
    forall i :: 0 <= i < |ls| ==> PlainLine(ls[i])
  }

  /** No blank line starts within a plain line or its CRLF, unless the text ends with an empty line right there. */
  lemma NoBlankLineIn(l: string, rest: string, j: nat)
    requires PlainLine(l) && j < |l| + 2 && j + 4 <= |l| + 2 + |rest|
    requires rest != [] && (rest[0] in EOLS ==> j != |l|)
    ensures !OccursAt(l + CRLF + rest, BLANK_LINE, j)
  {
    var text := l + CRLF + rest;
    if j < |l| {
      assert text[j] == l[j] && l[j] !in EOLS;
    } else if j == |l| {
      assert text[j + 2] == rest[0];
    } else {
      assert text[j] == '\n';
    }
    NotAt(text, j);
  }

  /** A place past the first line is a place in the rest. */
  lemma PastFirstLine(l: string, rest: string, j: nat)
    requires |l| + 2 <= j
    ensures OccursAt(l + CRLF + rest, BLANK_LINE, j) <==> OccursAt(rest, BLANK_LINE, j - |l| - 2)
  {
    var text := l + CRLF + rest;
    if j + 4 <= |text| {
      assert text[j..j + 4] == rest[j - |l| - 2..j - |l| + 2];
    }
  }

  /** The first blank line of nonempty plain lines is the one printed after them. */
  lemma {:induction false} BlankLineIsLast(ls: seq<string>)
    requires ls != [] && PlainLines(ls)
    ensures var text := Lines(ls) + CRLF;
            && |text| >= 5 && OccursAt(text, BLANK_LINE, |text| - 4)
            && forall j :: 0 <= j < |text| - 4 ==> !OccursAt(text, BLANK_LINE, j)
  {
    hide OccursAt;
    var l, rest := ls[0], Lines(ls[1..]) + CRLF;
    var text := Lines(ls) + CRLF;
    assert PlainLine(l);
    Regroup(l + CRLF, Lines(ls[1..]), CRLF);
    assert text == l + CRLF + rest;
    if |ls| == 1 {
      assert rest == CRLF;
      OneLineThenBlank(l);
    } else {
      BlankLineIsLast(ls[1..]);
      FirstOfLines(ls[1..]);
      PastFirstLine(l, rest, |text| - 4);
    }
    forall j | 0 <= j < |text| - 4 ensures !OccursAt(text, BLANK_LINE, j) {
      if j < |l| + 2 {
        NoBlankLineIn(l, rest, j);
      } else {
        PastFirstLine(l, rest, j);
      }
    }
  }

  lemma FirstOfLines(ls: seq<string>)
    requires ls != [] && PlainLines(ls)
    ensures Lines(ls) != [] && (Lines(ls) + CRLF)[0] !in EOLS
  {
    assert PlainLine(ls[0]);
    assert Lines(ls)[0] == ls[0][0];
  }

  lemma OneLineThenBlank(l: string)
    ensures OccursAt(l + CRLF + CRLF, BLANK_LINE, |l|)
  {
    assert (l + CRLF + CRLF)[|l|..|l| + 4] == BLANK_LINE;
  }

  /** A blank line starts with CR and has CR two bytes on. */
  lemma NotAt(text: string, j: nat)
    requires j + 4 <= |text| && (text[j] != '\r' || text[j + 2] != '\r')
    ensures !OccursAt(text, BLANK_LINE, j)
  {
    assert text[j..j + 4][0] == text[j] && text[j..j + 4][2] == text[j + 2];
  }

  /** The first CRLF ends the first line. */
  lemma FirstCrlf(l: string, rest: string)
    requires Free(l, EOLS)
    ensures Find(l + CRLF + rest, CRLF) == |l|
  {
    var text := l + CRLF + rest;
    assert text[|l|..|l| + 2] == CRLF;
    forall j | 0 <= j < |l| ensures !OccursAt(text, CRLF, j) {
      assert text[j] == l[j] && l[j] !in EOLS;
      assert text[j..j + 2][0] == text[j];
    }
    FindIs(text, CRLF, |l|);
  }

  // ---------------------------------------------------------------------
  // Fields
  // ---------------------------------------------------------------------

  lemma {:induction false} ParseFieldsShift(h: string, base: nat, pos: nat)
    requires base <= pos <= |h|
    ensures ParseFields(h, pos) == ParseFields(h[base..], pos - base)
    decreases |h| - pos
  {
    hide LineFields, FindFirstOf;
    FindFirstOfShift(h, EOLS, base, pos);
    var next := FindFirstOf(h, EOLS, pos);
    if next < |h| {
      assert h[base..][pos - base..next - base] == h[pos..next];
      if next + 2 <= |h| {
        ParseFieldsShift(h, base, next + 2);
      } else {
        NothingAfterTheEnd(h, next + 2);
        NothingAfterTheEnd(h[base..], next + 2 - base);
      }
    }
  }

  lemma NothingAfterTheEnd(h: string, pos: nat)
    requires pos >= |h|
    ensures ParseFields(h, pos) == []
  {
  }

  /** Where the printed line of a field has its colon, and what is on either side. */
  lemma FieldLineParts(f: Field)
    requires CleanField(f)
    ensures var line := FieldLine(f);
            && PlainLine(line) && FindFirstOf(line, {':'}, 0) == |f.key| && |f.key| + 1 < |line|
            && line[..|f.key|] == f.key && line[|f.key| + 1..] == " " + f.value
  {
    hide CStr, FindFirstOf;
    CStrWhole(f.key);
    CStrWhole(f.value);
    var line := FieldLine(f);
    assert line == f.key + (": " + f.value);
    assert forall j :: 0 <= j < |f.key| ==> line[j] == f.key[j];
    assert line[|f.key|] == ':' && line[|f.key| + 1] == ' ';
    assert forall j :: |f.key| + 2 <= j < |line| ==> line[j] == f.value[j - |f.key| - 2];
    FindFirstOfIs(line, {':'}, 0, |f.key|);
  }

  /** One printed field line comes back as its field. */
  lemma FieldComesBack(f: Field)
    requires CleanField(f)
    ensures PlainLine(FieldLine(f)) && LineFields(FieldLine(f)) == [Normal(f)]
  {
    hide Trim, Lower, FindFirstOf, FieldLine;
    FieldLineParts(f);
    TrimAfterBlank(f.value);
  }

  /** Parsing goes line by line. */
  lemma ParseOneLine(l: string, rest: string)
    requires Free(l, EOLS)
    ensures ParseFields(l + CRLF + rest, 0) == LineFields(l) + ParseFields(rest, 0)
  {
    hide LineFields, FindFirstOf;
    var t := l + CRLF + rest;
    assert t[|l|] == '\r' && forall j :: 0 <= j < |l| ==> t[j] == l[j];
    FindFirstOfIs(t, EOLS, 0, |l|);
    assert t[0..|l|] == l && t[|l| + 2..] == rest;
    ParseFieldsShift(t, |l| + 2, |l| + 2);
  }

  /** The printed fields come back, one by one and in order. */
  lemma {:induction false} FieldsComeBack(order: seq<Field>)
    requires Clean(order)
    ensures PlainLines(FieldLines(order))
    ensures ParseFields(Lines(FieldLines(order)) + CRLF, 0) == NormalAll(order)
  {
    hide FieldLine, LineFields, Normal;
    if order == [] {
      assert [] + CRLF == [] + CRLF + [];
      ParseOneLine([], []);
      EmptyLine();
      NothingAfterTheEnd([], 0);
    } else {
      var l, ls := FieldLine(order[0]), FieldLines(order[1..]);
      FieldComesBack(order[0]);
      FieldsComeBack(order[1..]);
      assert FieldLines(order)[1..] == ls;
      Regroup(l + CRLF, Lines(ls), CRLF);
      ParseOneLine(l, Lines(ls) + CRLF);
    }
  }

  lemma EmptyLine()
    ensures LineFields([]) == []
  {
  }

  /** A header text is its first line, a CRLF, and the rest. */
  lemma HeaderTextParts(first: string, order: seq<Field>)
    ensures HeaderText(first, order) == first + CRLF + (Lines(FieldLines(order)) + CRLF)
    ensures ([first] + FieldLines(order))[1..] == FieldLines(order)
  {
    var ls := FieldLines(order);
    assert ([first] + ls)[1..] == ls;
    Regroup(first + CRLF, Lines(ls), CRLF);
  }

  /** Where a printed header ends. */
  lemma HeaderEnds(first: string, order: seq<Field>)
    requires PlainLine(first) && |first| >= 5 && Clean(order)
    ensures HeaderLength(HeaderText(first, order)) == |HeaderText(first, order)|
  {
    hide FieldLine, LineFields, Normal, FindFirstOf, ParseFields, NormalAll;
    FieldsComeBack(order);
    HeaderTextParts(first, order);
    BlankLineIsLast([first] + FieldLines(order));
    FindIs(HeaderText(first, order), BLANK_LINE, |HeaderText(first, order)| - 4);
  }

  /** Parsing from the end of the first line skips its CRLF. */
  lemma SkipFirstLine(first: string, rest: string)
    ensures ParseFields(first + CRLF + rest, |first|) == ParseFields(rest, 0)
  {
    hide LineFields, FindFirstOf;
    var text := first + CRLF + rest;
    assert text[|first|] == '\r';
    FindFirstOfIs(text, EOLS, |first|, |first|);
    assert text[|first|..|first|] == [];
    EmptyLine();
    assert text[|first| + 2..] == rest;
    ParseFieldsShift(text, |first| + 2, |first| + 2);
    assert [] + ParseFields(rest, 0) == ParseFields(rest, 0);
  }

  /** The whole header text: where it ends, where its first line ends, and its fields. */
  lemma HeaderComesBack(first: string, order: seq<Field>)
    requires PlainLine(first) && |first| >= 5 && Clean(order)
    ensures var text := HeaderText(first, order);
            && HeaderLength(text) == |text| && text[..|text|] == text && |first| < |text|
            && Find(text, CRLF) == |first| && text[..|first|] == first
            && ParseFields(text, |first|) == NormalAll(order)
  {
    hide FieldLine, LineFields, FindFirstOf, ParseFields, NormalAll, HeaderLength, Find, HeaderText;
    var rest := Lines(FieldLines(order)) + CRLF;
    HeaderEnds(first, order);
    HeaderTextParts(first, order);
    FieldsComeBack(order);
    FirstCrlf(first, rest);
    SkipFirstLine(first, rest);
  }

  // ---------------------------------------------------------------------
  // Round trips
  // ---------------------------------------------------------------------

  lemma RequestLineSplits(version: Version, action: string, uri: string)
    requires CleanWord(action) && CleanWord(uri)
    ensures var first := RequestLine(version, action, uri);
            PlainLine(first) && |first| >= 5 && Pieces(first, {' '}) == [action, uri, VersionText(version)]
  {
    hide Pieces;
    CStrWhole(action);
    CStrWhole(uri);
    var v := VersionText(version);
    var words := [action, uri, v];
    assert words[1..] == [uri, v] && words[1..][1..] == [v];
    assert Join([v], ' ') == v;
    assert Join([uri, v], ' ') == uri + [' '] + v;
    assert RequestLine(version, action, uri) == Join(words, ' ');
    SplitUndoesJoin(words, ' ');
  }

  /** Reading a printed request gives back all of it. */
  lemma RequestRoundTrip(version: Version, action: string, uri: string, order: seq<Field>)
    requires CleanWord(action) && CleanWord(uri) && Clean(order)
    ensures var text := HeaderText(RequestLine(version, action, uri), order);
            ParseRequest(text) == Parsed(|text|, version, action, uri, NormalAll(order))
  {
    hide HeaderText, RequestLine, Pieces, ParseFields, NormalAll;
    RequestLineSplits(version, action, uri);
    HeaderComesBack(RequestLine(version, action, uri), order);
  }

  lemma StatusLineIsPlain(version: Version, status: int)
    ensures var first := StatusLine(version, status);
            PlainLine(first) && |first| >= 10 && first[8] == ' ' && first[9] != ' '
  {
    hide StatusMessage;
    NatTextIsDigits(if status < 0 then -status else status);
    var number, phrase := IntText(status), StatusMessage(status);
    assert number != [] && Free(number, EOLS) && number[0] != ' ';
    assert Free(phrase, EOLS);
    assert Free(VersionText(version), EOLS);
    hide *;
    PlainConcat(VersionText(version), number, phrase);
  }

  lemma PlainConcat(a: string, b: string, c: string)
    requires Free(a, EOLS) && Free(b, EOLS) && Free(c, EOLS)
    ensures Free(a + " " + b + " " + c, EOLS)
  {
  }

  /** A printed response from its status on. */
  lemma StatusTail(version: Version, status: int, rest: string)
    ensures var text := StatusLine(version, status) + rest;
            && text[..8] == VersionText(version)
            && text[9..] == IntText(status) + (" " + StatusMessage(status) + rest)
  {
    hide StatusMessage, IntText;
    var text := StatusLine(version, status) + rest;
    var tail := " " + StatusMessage(status) + rest;
    assert text == (VersionText(version) + " ") + (IntText(status) + tail);
  }

  /** Reading a printed response gives back all of it: every int status, whatever the reason phrase. */
  lemma ResponseRoundTrip(version: Version, status: int, order: seq<Field>)
    requires INT_MIN <= status <= INT_MAX && Clean(order)
    ensures var text := HeaderText(StatusLine(version, status), order);
            ParseResponse(text) == Response(|text|, version, status, NormalAll(order))
  {
    hide HeaderText, StatusLine, ParseFields, NormalAll, StatusMessage, Atoi, IntText;
    var first := StatusLine(version, status);
    var text := HeaderText(first, order);
    StatusLineIsPlain(version, status);
    HeaderComesBack(first, order);
    var rest := text[|first|..];
    assert text[..|first|] == first;
    assert text == first + rest;
    StatusTail(version, status, rest);
    assert FindFirstNotOf(first, {' '}, 8) == 9;
    AtoiOfIntText(status, " " + StatusMessage(status) + rest);
  }

  lemma {:induction false} NormalAllOf(a: seq<Field>, i: nat)
    requires i < |a|
    ensures multiset(NormalAll(a)) == multiset(NormalAll(a[..i] + a[i + 1..])) + multiset{Normal(a[i])}
  {
    hide Normal;
    var b := a[..i] + a[i + 1..];
    if i == 0 {
      assert b == a[1..];
    } else {
      assert b[1..] == a[1..][..i - 1] + a[1..][i..];
      NormalAllOf(a[1..], i - 1);
    }
  }

  lemma WithoutOne(a: seq<Field>, i: nat)
    requires i < |a|
    ensures multiset(a[..i] + a[i + 1..]) == multiset(a) - multiset{a[i]}
  {
    assert a == a[..i] + ([a[i]] + a[i + 1..]);
  }

  /** What comes back does not depend, as a multiset, on the order in which the multimap presents its entries. */
  lemma {:induction false} OrderDoesNotMatter(a: seq<Field>, b: seq<Field>)
    requires multiset(a) == multiset(b)
    ensures multiset(NormalAll(a)) == multiset(NormalAll(b))
    decreases |a|
  {
    hide Normal, NormalAll;
    if a == [] {
      assert |multiset(b)| == 0;
      assert b == [];
    } else {
      assert a[0] in multiset(b);
      var i :| 0 <= i < |b| && b[i] == a[0];
      WithoutOne(a, 0);
      WithoutOne(b, i);
      OrderDoesNotMatter(a[..0] + a[1..], b[..i] + b[i + 1..]);
      NormalAllOf(a, 0);
      NormalAllOf(b, i);
    }
  }

  /** Writing a request and reading it into a fresh header: all of it is read, and
      the same request comes back, its fields normalised. */
  method WriteThenRead(h: HttpRequestHeader, b: array<Byte>, order: seq<Field>) returns (g: HttpRequestHeader, n: int)
    requires multiset(order) == multiset(h.fields)
    requires CleanWord(h.action) && CleanWord(h.uri) && Clean(h.fields)
    modifies b
    ensures |HeaderText(RequestLine(h.version, h.action, h.uri), order)| < b.Length ==>
              && n == |HeaderText(RequestLine(h.version, h.action, h.uri), order)|
              && g.version == h.version && g.action == h.action && g.uri == h.uri
              && multiset(g.fields) == multiset(NormalAll(h.fields))
  {
    CleanAnyOrder(h.fields, order);
    g := new HttpRequestHeader();
    n := h.WriteTo(b, b.Length, order);
    if n >= 0 {
      RequestRoundTrip(h.version, h.action, h.uri, order);
      OrderDoesNotMatter(order, h.fields);
      n := g.ReadFrom(b[..n]);
      assert [] + NormalAll(order) == NormalAll(order);
    }
  }

  lemma CleanAnyOrder(a: seq<Field>, b: seq<Field>)
    requires multiset(a) == multiset(b) && Clean(a)
    ensures Clean(b)
  {
    forall i | 0 <= i < |b| ensures CleanField(b[i]) {
      assert b[i] in multiset(a);
    }
  }

  // ---------------------------------------------------------------------
  // More input
  // ---------------------------------------------------------------------

  /** A request is incomplete exactly when there are under nine bytes or no blank line yet. */
  lemma IncompleteIff(text: string)
    ensures ParseRequest(text) == Incomplete
            <==> |text| < 9 || forall i :: 0 <= i < |text| ==> !OccursAt(text, BLANK_LINE, i)
  {
    var end := Find(text, BLANK_LINE);
    if end < |text| {
      assert OccursAt(text, BLANK_LINE, end);
    }
  }

  /** Once the outcome of parsing is known, more bytes do not change it. */
  lemma RequestIsStable(text: string, more: string)
    requires ParseRequest(text) != Incomplete
    ensures ParseRequest(text + more) == ParseRequest(text)
  {
    hide Pieces, ParseFields;
    FindIsStable(text, more, BLANK_LINE);
    var n := HeaderLength(text);
    assert HeaderLength(text + more) == n;
    assert (text + more)[..n] == text[..n];
  }
}
