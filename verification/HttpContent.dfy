// How many bytes of a stream the server takes for one request, told from the header
// lines themselves: by the number a content-length line gives, in any casing.
module HttpContent {
  import opened Basics
  import opened Text
  import opened Decimal
  import opened HttpHeader
  import opened HttpRoundTrip
  import opened HttpFraming
  import opened HttpPipelining
  import opened HttpLookup

  /** The value starts with the number n in decimal. */
  ghost predicate Shows(val: string, n: int) {
    exists rest :: val == IntText(n) + rest && (rest == [] || !IsDigit(rest[0]))
  }

  /** No line gives a value to the name and n is 0, or some does and all that do give the number n. */
  ghost predicate Gives(ls: seq<string>, name: string, n: int) {
    && (forall k, val :: 0 <= k < |ls| && Says(ls[k], name, val) ==> Shows(val, n))
    && (n == 0 || exists k, val :: 0 <= k < |ls| && Says(ls[k], name, val))
  }

  /** What the lines say about the length of the content: n bytes. */
  ghost predicate Announces(ls: seq<string>, n: int) {
    Gives(ls, "content-length", n)
  }

  /** Asked for the content length, `find` answers with one that is there, if there is one. */
  predicate Finds(find: Finder, fields: seq<Field>) {
    Has(fields, "content-length") ==> Field("content-length", find(fields, "content-length")) in fields
  }

  lemma {:induction false} CStrFront(s: string, rest: string)
    requires NUL !in s
    ensures CStr(s + rest) == s + CStr(rest)
  {
    if s == [] {
      assert s + rest == rest;
    } else {
      assert (s + rest)[1..] == s[1..] + rest;
      CStrFront(s[1..], rest);
    }
  }

  lemma ShownIsRead(val: string, n: int)
    requires Shows(val, n) && INT_MIN <= n <= INT_MAX
    ensures Atoi(CStr(val)) == n
  {
    hide IntText, CStr, Atoi, NatText;
    var rest :| val == IntText(n) + rest && (rest == [] || !IsDigit(rest[0]));
    IntTextIsPlain(n);
    CStrFront(IntText(n), rest);
    assert CStr(rest) <= rest;
    AtoiOfIntText(n, CStr(rest));
  }

  lemma IntTextIsPlain(n: int)
    ensures NUL !in IntText(n)
  {
    NatTextIsDigits(if n < 0 then -n else n);
  }

  /** The content length of a header is the number its lines announce. */
  lemma AnnouncedIsContentLength(ls: seq<string>, n: int, find: Finder)
    requires Announces(ls, n) && INT_MIN <= n <= INT_MAX && Finds(find, FieldsOf(ls))
    ensures ContentLength(FieldsOf(ls), find) == n
  {
    hide FieldsOf, Says, Shows, Atoi, CStr;
    var fields := FieldsOf(ls);
    if Has(fields, CONTENT_LENGTH) {
      var val := find(fields, CONTENT_LENGTH);
      FieldsOfIff(ls, CONTENT_LENGTH, val);
      var k :| 0 <= k < |ls| && Says(ls[k], CONTENT_LENGTH, val);
      ShownIsRead(val, n);
    } else if n != 0 {
      var k, val :| 0 <= k < |ls| && Says(ls[k], CONTENT_LENGTH, val);
      FieldsOfIff(ls, CONTENT_LENGTH, val);
    }
  }

  /** A stream that starts with a request of these lines. */
  lemma StreamIsParsed(version: Version, action: string, uri: string, ls: seq<string>, n: int, more: string,
                       find: Finder)
    requires CleanWord(action) && CleanWord(uri) && PlainLines(ls)
    requires Announces(ls, n) && INT_MIN <= n <= INT_MAX && Finds(find, FieldsOf(ls))
    ensures var text := HeaderOf(RequestLine(version, action, uri), ls);
            && ParseRequest(text + more) == Parsed(|text|, version, action, uri, FieldsOf(ls))
            && ContentLength(FieldsOf(ls), find) == n
  {
    hide HeaderOf, RequestLine, ParseRequest, FieldsOf, Announces, ContentLength, Finds;
    RequestFieldFoundIff(version, action, uri, ls, [], []);
    RequestIsStable(HeaderOf(RequestLine(version, action, uri), ls), more);
    AnnouncedIsContentLength(ls, n, find);
  }

  /** As long as bytes of the header or of the announced content are missing, however
      what has come was split over events, nothing is called and nothing consumed. The
      same holds forever if the announced number is negative. */
  lemma WaitsForContent(version: Version, action: string, uri: string, ls: seq<string>, n: int,
                        chunks: seq<string>, rest: string, more: string, find: Finder)
    requires CleanWord(action) && CleanWord(uri) && PlainLines(ls)
    requires Announces(ls, n) && INT_MIN <= n <= INT_MAX && Finds(find, FieldsOf(ls))
    requires var text := HeaderOf(RequestLine(version, action, uri), ls);
             Stream(chunks) + rest == text + more && (n < 0 || |Stream(chunks)| < |text| + n)
    ensures Feed(FRESH, chunks, find).calls == [] && Feed(FRESH, chunks, find).input == Stream(chunks)
  {
    hide HeaderOf, RequestLine, ParseRequest, FieldsOf, Announces, ContentLength, Finds, Stream, Feed;
    var s := Stream(chunks);
    StreamIsParsed(version, action, uri, ls, n, more, find);
    if Ready(s, find) {
      RequestIsStable(s, rest);
    }
    NothingBeforeReady(chunks, find);
  }

  /** The event that brings the last of them makes one call, with what the first line
      and the header lines say and with all the bytes behind the header, and takes
      exactly the header and n bytes of content. */
  lemma TakesContent(version: Version, action: string, uri: string, ls: seq<string>, n: nat,
                     chunks: seq<string>, chunk: string, rest: string, more: string, find: Finder)
    requires CleanWord(action) && CleanWord(uri) && PlainLines(ls)
    requires Announces(ls, n) && n <= INT_MAX && Finds(find, FieldsOf(ls))
    requires var text := HeaderOf(RequestLine(version, action, uri), ls);
             && Stream(chunks) + chunk + rest == text + more
             && |Stream(chunks)| < |text| + n <= |Stream(chunks)| + |chunk|
    ensures var text, s := HeaderOf(RequestLine(version, action, uri), ls), Stream(chunks) + chunk;
            var c := Feed(FRESH, chunks + [chunk], find);
            && c.calls == [Call(version, action, uri, FieldsOf(ls), s[|text|..])]
            && c.input == s[|text| + n..]
  {
    hide HeaderOf, RequestLine, ParseRequest, FieldsOf, Announces, ContentLength, Finds, Stream, Feed;
    var text, s := HeaderOf(RequestLine(version, action, uri), ls), Stream(chunks) + chunk;
    var tail := s[|text|..];
    assert s == text + tail by {
      assert (s + rest)[..|text|] == s[..|text|] && (text + more)[..|text|] == text;
    }
    StreamIsParsed(version, action, uri, ls, n, tail, find);
    assert Ready(s, find);
    if Ready(Stream(chunks), find) {
      RequestIsStable(Stream(chunks), chunk);
    }
    FirstDispatch(chunks, chunk, find);
  }

  /** Over any number of events after that: the k-th call is made by the event by which
      k stretches as long as header and content have come, one call per event at most,
      and takes the bytes behind the header in its own stretch, however much has come. */
  lemma CallsByContent(version: Version, action: string, uri: string, ls: seq<string>, n: nat,
                       chunks: seq<string>, more: string, find: Finder)
    requires CleanWord(action) && CleanWord(uri) && PlainLines(ls)
    requires Announces(ls, n) && n <= INT_MAX && Finds(find, FieldsOf(ls))
    requires Stream(chunks) == HeaderOf(RequestLine(version, action, uri), ls) + more
    ensures var need := |HeaderOf(RequestLine(version, action, uri), ls)| + n;
            Serves(Feed(FRESH, chunks, find), Parsed(need - n, version, action, uri, FieldsOf(ls)),
                   Stream(chunks), Served(chunks, need), need)
  {
    hide HeaderOf, RequestLine, ParseRequest, FieldsOf, Announces, ContentLength, Finds, Stream, Feed, Served, Serves;
    StreamIsParsed(version, action, uri, ls, n, more, find);
    CallsAre(chunks, find);
  }

  /** A printed request with one field of a name, in any casing, whose value is the
      number n between blanks, gives n to that name. */
  lemma PrintedFieldGives(order: seq<Field>, i: nat, name: string, n: int)
    requires Clean(order) && i < |order| && Lowercase(name)
    requires forall k :: 0 <= k < |order| ==> (Names(order[k].key, name) <==> k == i)
    requires Carries(order[i].value, IntText(n))
    ensures PlainLines(FieldLines(order)) && Gives(FieldLines(order), name, n)
  {
    hide FieldLine, FieldLines, Names, Carries, Says, IntText, ParseFields, NormalAll, Lines, Shows;
    FieldsComeBack(order);
    FieldLinesAt(order);
    var ls := FieldLines(order);
    PrintedFieldSays(order[i], name, IntText(n));
    assert Says(ls[i], name, IntText(n));
    forall k, val | 0 <= k < |ls| && Says(ls[k], name, val) ensures Shows(val, n) {
      PrintedFieldSays(order[k], name, val);
      CarriesOne(order[i].value, val, IntText(n));
      WholeShows(n);
    }
  }

  lemma WholeShows(n: int)
    ensures Shows(IntText(n), n)
  {
    assert IntText(n) == IntText(n) + [];
  }

  lemma CarriesOne(text: string, a: string, b: string)
    requires Carries(text, a) && Carries(text, b)
    ensures a == b
  {
    hide Carries;
    CarriesIff(text, a);
    CarriesIff(text, b);
  }

  lemma {:induction false} FieldLinesAt(order: seq<Field>)
    ensures |FieldLines(order)| == |order|
    ensures forall k :: 0 <= k < |order| ==> FieldLines(order)[k] == FieldLine(order[k])
  {
    hide FieldLine;
    if order != [] {
      FieldLinesAt(order[1..]);
    }
  }

  /** A printed request without such a field gives nothing. */
  lemma OtherFieldsGiveNothing(order: seq<Field>, name: string)
    requires Clean(order) && Lowercase(name) && forall k :: 0 <= k < |order| ==> !Names(order[k].key, name)
    ensures PlainLines(FieldLines(order)) && Gives(FieldLines(order), name, 0)
  {
    hide FieldLine, FieldLines, Names, Carries, Says, IntText, ParseFields, NormalAll, Lines, Shows;
    FieldsComeBack(order);
    FieldLinesAt(order);
    var ls := FieldLines(order);
    forall k, val | 0 <= k < |ls| ensures !Says(ls[k], name, val) {
      PrintedFieldSays(order[k], name, val);
    }
  }
}
