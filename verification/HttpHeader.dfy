// HTTP/1.x headers: the parser and printer of requests and responses, as the
// source runs them over a text and a byte buffer, each tied to a function.
module HttpHeader {
  import opened Basics
  import opened Text
  import opened StringUtil
  import opened Decimal

  datatype Version = Http10 | Http11

  /** One entry of the multimap. Entries are kept in the order they were emplaced;
      the multimap itself is the multiset of them. */
  datatype Field = Field(key: string, value: string)

  const EOLS: set<Byte> := {'\r', '\n'}

  function ToLower(c: Byte): Byte {
    if 'A' <= c <= 'Z' then (c as int + 32) as char else c
  }

  function Lower(s: string): string {
    if s == [] then [] else [ToLower(s[0])] + Lower(s[1..])
  }

  function VersionText(v: Version): string {
    if v.Http10? then "HTTP/1.0" else "HTTP/1.1"
  }

  // ---------------------------------------------------------------------
  // What a text parses to
  // ---------------------------------------------------------------------

  /** The entry in a line, if its first colon is not its last byte. */
  function LineFields(line: string): seq<Field> {
    var colon := FindFirstOf(line, {':'}, 0);
    if colon + 1 >= |line| then [] else [Field(Lower(Trim(line[..colon])), Trim(line[colon + 1..]))]
  }

  /** The entries of the lines of `header` from pos on; a line ends at the first CR or
      LF, and the byte after that is skipped. */
  function ParseFields(header: string, pos: nat): seq<Field>
    decreases |header| - pos
  {
    var next := FindFirstOf(header, EOLS, pos);
    if next == |header| then [] else LineFields(header[pos..next]) + ParseFields(header, next + 2)
  }

  /** Where the header ends, counting its blank line; 0 if that is not yet known. */
  function HeaderLength(text: string): (n: nat)
    ensures n <= |text|
  {
    var end := Find(text, BLANK_LINE);
    if |text| < 9 || end == |text| then 0 else end + |BLANK_LINE|
  }

  datatype RequestParse =
    | Incomplete
    | Malformed
    | BadVersion(action: string, uri: string)
    | Parsed(length: nat, version: Version, action: string, uri: string, fields: seq<Field>)

  function ParseRequest(text: string): RequestParse {
    if HeaderLength(text) == 0 then Incomplete
    else
      var header := text[..HeaderLength(text)];
      var pos := Find(header, CRLF);
      var words := Pieces(header[..pos], {' '});
      if |words| != 3 then Malformed
      else if words[2] == "HTTP/1.0" then Parsed(|header|, Http10, words[0], words[1], ParseFields(header, pos))
      else if words[2] == "HTTP/1.1" then Parsed(|header|, Http11, words[0], words[1], ParseFields(header, pos))
      else BadVersion(words[0], words[1])
  }

  datatype ResponseParse =
    | NoResponse
    | UnknownVersion
    | NoStatus(version: Version)
    | Response(length: nat, version: Version, status: int, fields: seq<Field>)

  function ParseResponse(text: string): ResponseParse {
    if HeaderLength(text) == 0 then NoResponse
    else
      var header := text[..HeaderLength(text)];
      var pos := Find(header, CRLF);
      if text[..8] != "HTTP/1.0" && text[..8] != "HTTP/1.1" then UnknownVersion
      else
        var version := if text[..8] == "HTTP/1.0" then Http10 else Http11;
        var next := FindFirstNotOf(header[..pos], {' '}, 8);
        if next == pos then NoStatus(version)
        else Response(|header|, version, Atoi(text[next..]), ParseFields(header, pos))
  }

  // ---------------------------------------------------------------------
  // What a header prints as
  // ---------------------------------------------------------------------

  function FieldLine(f: Field): string {
    CStr(f.key) + ": " + CStr(f.value)
  }

  function FieldLines(order: seq<Field>): seq<string> {
    if order == [] then [] else [FieldLine(order[0])] + FieldLines(order[1..])
  }

  /** Each line with its CRLF. */
  function Lines(ls: seq<string>): string {
    if ls == [] then [] else ls[0] + CRLF + Lines(ls[1..])
  }

  /** The printed header, its fields in the given order. */
  function HeaderText(first: string, order: seq<Field>): string {
    Lines([first] + FieldLines(order)) + CRLF
  }

  function RequestLine(version: Version, action: string, uri: string): string {
    CStr(action) + " " + CStr(uri) + " " + VersionText(version)
  }

  function StatusLine(version: Version, status: int): string {
    VersionText(version) + " " + IntText(status) + " " + StatusMessage(status)
  }

  /** No line break in it. */
  predicate OneLine(s: string) {
    forall i :: 0 <= i < |s| ==> s[i] != '\r' && s[i] != '\n'
  }

  /** A reason phrase is not empty and has no line break. */
  function Phrase(s: string): (r: string)
    requires s != [] && OneLine(s)
    ensures r != [] && OneLine(r) && r == s
  {
    s
  }

  /** The reason phrase of a status, "Undefined" for a status without one. */
  function StatusMessage(status: int): (r: string)
    ensures r != [] && OneLine(r)
  {
    if status < 400 then EarlyMessage(status)
    else if status < 450 then RefusalMessage(status)
    else if status < 458 then SessionMessage(status)
    else if status < 500 then AggregateMessage(status)
    else ServerMessage(status)
  }

  function EarlyMessage(status: int): (r: string)
    ensures r != [] && OneLine(r)
  {
    match status
    case 100 => Phrase("Continue")
    case 101 => Phrase("Web Socket Protocol Handshake")
    case 200 => Phrase("OK")
    case 201 => Phrase("Created")
    case 206 => Phrase("Partial Content")
    case 250 => Phrase("Low on Storage Space")
    case 300 => Phrase("Multiple Choices")
    case 301 => Phrase("Moved Permanently")
    case 302 => Phrase("Moved Temporarily")
    case 303 => Phrase("See Other")
    case 304 => Phrase("Not Modified")
    case 305 => Phrase("Use Proxy")
    case _ => Phrase("Undefined")
  }

  function RefusalMessage(status: int): (r: string)
    ensures r != [] && OneLine(r)
  {
    match status
    case 400 => Phrase("Bad Request")
    case 401 => Phrase("Unauthorized")
    case 402 => Phrase("Payment Required")
    case 403 => Phrase("Forbidden")
    case 404 => Phrase("Not Found")
    case 405 => Phrase("Method Not Allowed")
    case 406 => Phrase("Not Acceptable")
    case 407 => Phrase("Proxy Authentication Required")
    case 408 => Phrase("Request Time-out")
    case 410 => Phrase("Gone")
    case 411 => Phrase("Length Required")
    case 412 => Phrase("Precondition Failed")
    case 413 => Phrase("Request Entity Too Large")
    case 414 => Phrase("Request-URI Too Large")
    case 415 => Phrase("Unsupported Media Type")
    case _ => Phrase("Undefined")
  }

  function SessionMessage(status: int): (r: string)
    ensures r != [] && OneLine(r)
  {
    match status
    case 451 => Phrase("Parameter Not Understood")
    case 452 => Phrase("Conference Not Found")
    case 453 => Phrase("Not Enough Bandwidth")
    case 454 => Phrase("Session Not Found")
    case 455 => Phrase("Method Not Valid in This State")
    case 456 => Phrase("Header Field Not Valid for Resource")
    case 457 => Phrase("Invalid Range")
    case _ => Phrase("Undefined")
  }

  function AggregateMessage(status: int): (r: string)
    ensures r != [] && OneLine(r)
  {
    match status
    case 458 => Phrase("Parameter Is Read-Only")
    case 459 => Phrase("Aggregate operation not allowed")
    case 460 => Phrase("Only aggregate operation allowed")
    case 461 => Phrase("Unsupported transport")
    case 462 => Phrase("Destination unreachable")
    case 480 => Phrase("Temporarity Not Available")
    case _ => Phrase("Undefined")
  }

  function ServerMessage(status: int): (r: string)
    ensures r != [] && OneLine(r)
  {
    match status
    case 500 => Phrase("Internal Server Error")
    case 501 => Phrase("Not Implemented")
    case 502 => Phrase("Bad Gateway")
    case 503 => Phrase("Service Unavailable")
    case 504 => Phrase("Gateway Time-out")
    case 505 => Phrase("RTSP Version not supported")
    case 551 => Phrase("Option not supported")
    case _ => Phrase("Undefined")
  }

  // ---------------------------------------------------------------------
  // The parsing loop
  // ---------------------------------------------------------------------

  /** The end of a header is a CRLF, so the first line has an end. */
  lemma FirstLineEnds(text: string)
    requires HeaderLength(text) != 0
    ensures Find(text[..HeaderLength(text)], CRLF) + |BLANK_LINE| <= HeaderLength(text)
  {
    var n := HeaderLength(text);
    var header := text[..n];
    assert OccursAt(text, BLANK_LINE, n - 4);
    assert header[n - 4..n - 2] == text[n - 4..n][..2] == CRLF;
    assert OccursAt(header, CRLF, n - 4);
  }

  /** The first colon of a line, if not its last byte, is that of the line without its last byte. */
  lemma ShortenedColon(whole: string)
    requires whole != []
    ensures var line := whole[..|whole| - 1];
            var colon, c := FindFirstOf(line, {':'}, 0), FindFirstOf(whole, {':'}, 0);
            if colon == |line| then c + 1 >= |whole| else c == colon
  {
    var line := whole[..|whole| - 1];
    var colon, c := FindFirstOf(line, {':'}, 0), FindFirstOf(whole, {':'}, 0);
    assert forall j :: 0 <= j < |line| ==> line[j] == whole[j];
    if colon < |line| {
      FindFirstOfIs(whole, {':'}, 0, colon);
    } else {
      assert c + 1 >= |whole|;
    }
  }

  /** The parser takes the line one byte short and the value one byte long: the field it
      finds is that of the whole line. */
  lemma ShortenedLine(header: string, pos: nat, next: nat)
    requires pos < next <= |header|
    ensures var line := header[pos..next - 1];
            var colon := FindFirstOf(line, {':'}, 0);
            LineFields(header[pos..next])
            == if colon == |line| then []
               else [Field(Lower(Trim(line[..colon])),
                           Trim(header[pos + colon + 1..pos + colon + 1 + (|line| - colon)]))]
  {
    var whole, line := header[pos..next], header[pos..next - 1];
    assert whole[..|whole| - 1] == line;
    ShortenedColon(whole);
    var colon := FindFirstOf(line, {':'}, 0);
    if colon < |line| {
      assert whole[..colon] == line[..colon];
      assert whole[colon + 1..] == header[pos + colon + 1..next];
    }
  }

  /** What both parsers make of the line from pos to its end at next. */
  method ReadLine(header: string, pos: nat, next: nat) returns (found: seq<Field>)
    requires pos <= next <= |header|
    ensures found == LineFields(header[pos..next])
  {
    hide Trim, Lower, FindFirstOf;
    if next == pos { return []; }
    ShortenedLine(header, pos, next);
    var line := header[pos..next - 1];
    var colon := FindFirstOf(line, {':'}, 0);
    if colon == |line| { return []; }
    var key := Trim(line[..colon]);
    var value := Trim(header[pos + colon + 1..pos + colon + 1 + (|line| - colon)]);
    key := Lower(key);
    return [Field(key, value)];
  }

  /** The loop with what it has found so far. */
  function Resume(fields: seq<Field>, header: string, pos: nat): seq<Field>
    decreases |header| - pos
  {
    var next := FindFirstOf(header, EOLS, pos);
    if next == |header| then fields else Resume(fields + LineFields(header[pos..next]), header, next + 2)
  }

  lemma {:induction false} ResumeAppends(fields: seq<Field>, header: string, pos: nat)
    ensures Resume(fields, header, pos) == fields + ParseFields(header, pos)
    decreases |header| - pos
  {
    hide LineFields, FindFirstOf;
    var next := FindFirstOf(header, EOLS, pos);
    if next == |header| {
      assert fields + [] == fields;
    } else {
      var added, rest := LineFields(header[pos..next]), ParseFields(header, next + 2);
      calc {
        Resume(fields, header, pos);
        Resume(fields + added, header, next + 2);
        { ResumeAppends(fields + added, header, next + 2); }
        (fields + added) + rest;
        { Regroup(fields, added, rest); }
        fields + (added + rest);
        fields + ParseFields(header, pos);
      }
    }
  }

  /** The loop that both parsers run over the header lines. */
  method ReadFields(header: string, start: nat) returns (fields: seq<Field>)
    requires start <= |header|
    ensures fields == ParseFields(header, start)
  {
    hide LineFields, FindFirstOf, ParseFields;
    ResumeAppends([], header, start);
    ghost var all := ParseFields(header, start);
    assert [] + all == all;
    fields := [];
    var pos := start;
    while true
      invariant 0 <= pos <= |header| + 1
      invariant Resume(fields, header, pos) == all
      decreases |header| + 1 - pos
    {
      var next := FindFirstOf(header, EOLS, pos);
      if next == |header| { return; }
      var found := ReadLine(header, pos, next);
      fields := fields + found;
      pos := next + 2;
    }
  }

  // ---------------------------------------------------------------------
  // Printing into a buffer
  // ---------------------------------------------------------------------

  /** snprintf with the formatted text already worked out: as much of it as fits with a closing NUL. */
  method Snprintf(b: array<Byte>, at: nat, n: nat, text: string) returns (r: nat)
    requires at + n <= b.Length
    modifies b
    ensures r == |text|
    ensures n == 0 ==> b[..] == old(b[..])
    ensures n > 0 ==> var k := Min(|text|, n - 1);
                      b[..] == old(b[..at]) + text[..k] + [NUL] + old(b[at + k + 1..])
  {
    if n > 0 {
      var k := Min(|text|, n - 1);
      for i := 0 to k
        invariant forall j :: 0 <= j < b.Length && !(at <= j < at + i) ==> b[j] == old(b[j])
        invariant forall j :: 0 <= j < i ==> b[at + j] == text[j]
      {
        b[at + i] := text[i];
      }
      b[at + k] := NUL;
      assert b[..at] == old(b[..at]) && b[at..at + k] == text[..k] && b[at + k + 1..] == old(b[at + k + 1..]);
      assert b[..] == b[..at] + b[at..at + k] + [b[at + k]] + b[at + k + 1..];
    }
    return |text|;
  }

  lemma {:induction false} LinesSnoc(ls: seq<string>, l: string)
    ensures Lines(ls + [l]) == Lines(ls) + (l + CRLF)
  {
    if ls == [] {
      assert [l][1..] == [] && [] + [l] == [l];
      assert Lines([l]) == l + CRLF + [];
    } else {
      assert (ls + [l])[1..] == ls[1..] + [l];
      LinesSnoc(ls[1..], l);
      Regroup(ls[0] + CRLF, Lines(ls[1..]), l + CRLF);
    }
  }

  lemma {:induction false} FieldLinesSnoc(order: seq<Field>, f: Field)
    ensures FieldLines(order + [f]) == FieldLines(order) + [FieldLine(f)]
  {
    if order == [] {
      assert [f][1..] == [] && [] + [f] == [f];
    } else {
      assert (order + [f])[1..] == order[1..] + [f];
      FieldLinesSnoc(order[1..], f);
      Regroup([FieldLine(order[0])], FieldLines(order[1..]), [FieldLine(f)]);
    }
  }

  /** The printed text so far, after the first i fields. */
  function Printed(first: string, order: seq<Field>, i: nat): string
    requires i <= |order|
  {
    Lines([first] + FieldLines(order[..i]))
  }

  lemma PrintedNext(first: string, order: seq<Field>, i: nat)
    requires i < |order|
    ensures Printed(first, order, i + 1) == Printed(first, order, i) + (FieldLine(order[i]) + CRLF)
  {
    assert order[..i + 1] == order[..i] + [order[i]];
    FieldLinesSnoc(order[..i], order[i]);
    Regroup([first], FieldLines(order[..i]), [FieldLine(order[i])]);
    LinesSnoc([first] + FieldLines(order[..i]), FieldLine(order[i]));
  }

  lemma PrintedEnds(first: string, order: seq<Field>)
    ensures Printed(first, order, 0) == first + CRLF
    ensures Printed(first, order, |order|) + CRLF == HeaderText(first, order)
  {
    assert order[..|order|] == order && order[..0] == [];
    assert [first] + FieldLines([]) == [first];
    LinesSnoc([], first);
    assert [] + [first] == [first];
    assert [] + (first + CRLF) == first + CRLF;
  }

  lemma {:induction false} PrintedBounds(first: string, order: seq<Field>, i: nat)
    requires i <= |order|
    ensures |Printed(first, order, i)| + 2 <= |HeaderText(first, order)|
    decreases |order| - i
  {
    if i < |order| {
      PrintedNext(first, order, i);
      PrintedBounds(first, order, i + 1);
    } else {
      PrintedEnds(first, order);
    }
  }

  /** The buffer now starts with the text and a closing NUL, and is otherwise as it was. */
  predicate Holds(now: seq<Byte>, text: string, orig: seq<Byte>) {
    && |text| < |now| == |orig|
    && now[..|text|] == text && now[|text|] == NUL && now[|text| + 1..] == orig[|text| + 1..]
  }

  predicate SameFrom(now: seq<Byte>, len: nat, orig: seq<Byte>) {
    len <= |now| == |orig| && now[len..] == orig[len..]
  }

  /** One snprintf at the end of a text that has fitted so far. */
  lemma Spliced(before: seq<Byte>, sofar: string, part: string, orig: seq<Byte>, len: nat, after: seq<Byte>)
    requires Holds(before, sofar, orig) && |sofar| < len <= |orig|
    requires var k := Min(|part|, len - |sofar| - 1);
             after == before[..|sofar|] + part[..k] + [NUL] + before[|sofar| + k + 1..]
    ensures SameFrom(after, len, orig)
    ensures |sofar| + |part| < len ==> Holds(after, sofar + part, orig)
  {
    var k := Min(|part|, len - |sofar| - 1);
    var head, tail := before[..|sofar|] + part[..k] + [NUL], before[|sofar| + k + 1..];
    assert before[|sofar| + 1..][k..] == tail && orig[|sofar| + 1..][k..] == orig[|sofar| + k + 1..];
    assert |head| == |sofar| + k + 1 <= len && after == head + tail;
    assert after[len..] == tail[len - |head|..] == orig[|sofar| + k + 1..][len - |head|..] == orig[len..];
    if |sofar| + |part| < len {
      assert part[..k] == part && head == (sofar + part) + [NUL];
    }
  }

  /** Continues a text that has fitted so far by one snprintf. */
  method Continue(b: array<Byte>, len: nat, wlen: nat, part: string, ghost sofar: string, ghost orig: seq<Byte>)
    returns (n: nat)
    requires wlen == |sofar| < len <= b.Length == |orig|
    requires Holds(b[..], sofar, orig)
    modifies b
    ensures n == |part|
    ensures SameFrom(b[..], len, orig)
    ensures wlen + n < len ==> Holds(b[..], sofar + part, orig)
  {
    ghost var before := b[..];
    n := Snprintf(b, wlen, len - wlen, part);
    Spliced(before, sofar, part, orig, len, b[..]);
  }

  /** The opening line: the buffer need not hold a text yet. */
  method Begin(b: array<Byte>, len: nat, first: string) returns (n: nat)
    requires 0 < len <= b.Length
    modifies b
    ensures n == |first| + 2
    ensures SameFrom(b[..], len, old(b[..]))
    ensures n < len ==> Holds(b[..], first + CRLF, old(b[..]))
  {
    ghost var before := b[..];
    n := Snprintf(b, 0, len, first + CRLF);
    ghost var k := Min(n, len - 1);
    ghost var head, tail := (first + CRLF)[..k] + [NUL], before[k + 1..];
    assert b[..] == head + tail;
    assert b[..][len..] == tail[len - |head|..] == before[len..];
    if n < len {
      assert (first + CRLF)[..k] == first + CRLF;
    }
  }

  /** Both write_to functions: print the first line, the fields and the blank line
      with one snprintf each. The text is complete exactly when it fits with a closing NUL. */
  method WriteHeader(b: array<Byte>, len: nat, first: string, order: seq<Field>) returns (r: int)
    requires len <= b.Length
    modifies b
    ensures r == (if |HeaderText(first, order)| < len then |HeaderText(first, order)| else -1)
    ensures r >= 0 ==> Holds(b[..], HeaderText(first, order), old(b[..]))
    ensures SameFrom(b[..], len, old(b[..]))
  {
    PrintedEnds(first, order);
    PrintedBounds(first, order, 0);
    if len == 0 { return -1; }
    ghost var orig := b[..];
    var wlen := Begin(b, len, first);
    var i := 0;
    while i < |order|
      invariant 0 <= i <= |order| && wlen == |Printed(first, order, i)|
      invariant wlen < len ==> Holds(b[..], Printed(first, order, i), orig)
      invariant SameFrom(b[..], len, orig)
    {
      PrintedBounds(first, order, i);
      if wlen >= len { return -1; }
      PrintedNext(first, order, i);
      var n := Continue(b, len, wlen, FieldLine(order[i]) + CRLF, Printed(first, order, i), orig);
      wlen := wlen + n;
      i := i + 1;
    }
    if wlen + 2 >= len { return -1; }
    var _ := Continue(b, len, wlen, CRLF, Printed(first, order, |order|), orig);
    return wlen + 2;
  }

  // ---------------------------------------------------------------------
  // The objects
  // ---------------------------------------------------------------------

  class HttpRequestHeader {
    var version: Version
    var action: string
    var uri: string
    var fields: seq<Field>

    constructor ()
      ensures version == Http11 && action == "" && uri == "" && fields == []
    {
      version, action, uri, fields := Http11, "", "", [];
    }

    /** Reads a header from the front of the text: its length, 0 if it is not all there, -1 if it is not one. */
    method ReadFrom(text: string) returns (r: int)
      modifies this
      ensures match ParseRequest(text)
              case Incomplete => r == 0 && unchanged(this)
              case Malformed => r == -1 && unchanged(this)
              case BadVersion(a, u) =>
                r == -1 && action == a && uri == u && version == old(version) && fields == old(fields)
              case Parsed(n, v, a, u, fs) =>
                r == n && version == v && action == a && uri == u && fields == old(fields) + fs
    {
      if |text| < 9 { return 0; }
      var end := Find(text, BLANK_LINE);
      if end == |text| { return 0; }
      FirstLineEnds(text);
      var header := text[..end + |BLANK_LINE|];
      var pos := Find(header, CRLF);
      var words := Split(header[..pos], {' '});
      if |words| != 3 { return -1; }
      action := words[0];
      uri := words[1];
      if words[2] == "HTTP/1.0" {
        version := Http10;
      } else if words[2] == "HTTP/1.1" {
        version := Http11;
      } else {
        return -1;
      }
      var fs := ReadFields(header, pos);
      fields := fields + fs;
      return |header|;
    }

    /** Prints the header; the multimap may present its entries in any order. */
    method WriteTo(b: array<Byte>, len: nat, order: seq<Field>) returns (r: int)
      requires len <= b.Length && multiset(order) == multiset(fields)
      modifies b
      ensures var text := HeaderText(RequestLine(version, action, uri), order);
              && r == (if |text| < len then |text| else -1)
              && (r >= 0 ==> Holds(b[..], text, old(b[..])))
      ensures SameFrom(b[..], len, old(b[..]))
    {
      r := WriteHeader(b, len, RequestLine(version, action, uri), order);
    }
  }

  class HttpResponseHeader {
    var version: Version
    var status: int
    var fields: seq<Field>

    constructor (status: int)
      ensures version == Http11 && this.status == status && fields == []
    {
      version, this.status, fields := Http11, status, [];
    }

    method ReadFrom(text: string) returns (r: int)
      modifies this
      ensures match ParseResponse(text)
              case NoResponse => r == 0 && unchanged(this)
              case UnknownVersion => r == -1 && unchanged(this)
              case NoStatus(v) => r == -1 && version == v && status == old(status) && fields == old(fields)
              case Response(n, v, st, fs) => r == n && version == v && status == st && fields == old(fields) + fs
    {
      if |text| < 9 { return 0; }
      var end := Find(text, BLANK_LINE);
      if end == |text| { return 0; }
      FirstLineEnds(text);
      var header := text[..end + |BLANK_LINE|];
      var pos := Find(header, CRLF);
      if text[..8] == "HTTP/1.0" {
        version := Http10;
      } else if text[..8] == "HTTP/1.1" {
        version := Http11;
      } else {
        return -1;
      }
      var next := FindFirstNotOf(header[..pos], {' '}, 8);
      if next == pos { return -1; }
      status := Atoi(text[next..]);
      var fs := ReadFields(header, pos);
      fields := fields + fs;
      return |header|;
    }

    method WriteTo(b: array<Byte>, len: nat, order: seq<Field>) returns (r: int)
      requires len <= b.Length && multiset(order) == multiset(fields)
      modifies b
      ensures var text := HeaderText(StatusLine(version, status), order);
              && r == (if |text| < len then |text| else -1)
              && (r >= 0 ==> Holds(b[..], text, old(b[..])))
      ensures SameFrom(b[..], len, old(b[..]))
    {
      r := WriteHeader(b, len, StatusLine(version, status), order);
    }
  }
}
