/**
  Parser for multipart/form-data bodies (src/server/MultipartParser.cpp; section 5.1.1 of RFC 2046,
  section 4.2 of RFC 7578), proved to be the inverse of a printer. Bytes are written as `char`.
*/
module MultipartParser {
  import opened Common

  datatype Part = Part(filename: string, contentType: string, data: string)

  datatype ParseResult = Parsed(parts: map<string, Part>) | Threw

  // ---------------------------------------------------------------- searching

  predicate At(s: string, needle: string, i: nat) {
    i + |needle| <= |s| && s[i..i + |needle|] == needle
  }

  /** Position of the first occurrence at or after `i` (`std::string::find`). */
  function IndexOf(s: string, needle: string, i: nat): (r: Option<nat>)
    requires i <= |s|
    ensures r.Some? ==> i <= r.value && r.value + |needle| <= |s|
    decreases |s| - i
  {
    if At(s, needle, i) then Some(i) else if i == |s| then None else IndexOf(s, needle, i + 1)
  }

  /** `IndexOf` returns the first occurrence, or there is none. */
  lemma {:induction false} IndexOfIsFirst(s: string, needle: string, i: nat)
    requires i <= |s|
    ensures var r := IndexOf(s, needle, i);
      && (r.Some? ==> At(s, needle, r.value) && forall k :: i <= k < r.value ==> !At(s, needle, k))
      && (r.None? ==> forall k :: i <= k <= |s| ==> !At(s, needle, k))
    decreases |s| - i
  {
    if !At(s, needle, i) && i < |s| {
      IndexOfIsFirst(s, needle, i + 1);
    }
  }

  lemma FirstIs(s: string, needle: string, i: nat, j: nat)
    requires i <= j <= |s| && At(s, needle, j) && forall k :: i <= k < j ==> !At(s, needle, k)
    ensures IndexOf(s, needle, i) == Some(j)
  {
    IndexOfIsFirst(s, needle, i);
  }

  lemma AtChars(s: string, needle: string, i: nat, j: nat)
    requires At(s, needle, i) && j < |needle|
    ensures s[i + j] == needle[j]
  {
    assert s[i..i + |needle|][j] == needle[j];
  }

  lemma RuledOut(s: string, needle: string, i: nat, j: nat)
    requires j < |needle| && (i + j < |s| ==> s[i + j] != needle[j])
    ensures !At(s, needle, i)
  {
    if At(s, needle, i) {
      AtChars(s, needle, i, j);
    }
  }

  /** Searching in a tail is searching from there. */
  lemma FoundInTail(s: string, pos: nat, needle: string, i: nat)
    requires pos <= |s| && i <= |s| - pos
    ensures IndexOf(s[pos..], needle, i).Some? ==>
      IndexOf(s, needle, pos + i) == Some(pos + IndexOf(s[pos..], needle, i).value)
    decreases |s| - pos - i
  {
    var tail := s[pos..];
    if i + |needle| <= |tail| {
      assert s[pos + i..pos + i + |needle|] == tail[i..i + |needle|];
    }
    if !At(tail, needle, i) && i < |tail| {
      FoundInTail(s, pos, needle, i + 1);
    }
  }

  lemma AtAfter(prefix: string, needle: string, rest: string)
    ensures At(prefix + needle + rest, needle, |prefix|)
  {
    var s := prefix + needle + rest;
    assert s[|prefix|..|prefix| + |needle|] == needle;
  }

  // ---------------------------------------------------------------- headers

  const NAME := "name=\""
  const FILENAME := "filename=\""

  function Value(header: string, needle: string): string {
    match IndexOf(header, needle, 0)
    case None => ""
    case Some(pos) =>
      var start := pos + |needle|;
      match IndexOf(header, "\"", start)
      case None => ""
      case Some(end) => header[start..end]
  }

  function Lower(c: char): char {
    if 'A' <= c <= 'Z' then c - 'A' + 'a' else c
  }

  /** `key`, given in lower case, begins the line in any mix of cases. */
  predicate HasKey(line: string, key: string) {
    |key| <= |line| && forall i :: 0 <= i < |key| ==> Lower(line[i]) == key[i]
  }

  function SkipSpaces(s: string): string {
    if s == "" then "" else if s[0] == ' ' then SkipSpaces(s[1..]) else s
  }

  /** Leading spaces go, unless there is nothing else. */
  function TrimLeading(s: string): string {
    if SkipSpaces(s) == "" then s else SkipSpaces(s)
  }

  datatype Headers = Headers(name: string, filename: string, contentType: string)

  function DropCr(line: string): string {
    if line != "" && line[|line| - 1] == '\r' then line[..|line| - 1] else line
  }

  function ReadHeader(h: Headers, line: string): Headers {
    if HasKey(line, "content-disposition:") then h.(name := Value(line, NAME), filename := Value(line, FILENAME))
    else if HasKey(line, "content-type:") then
      var colon := IndexOf(line, ":", 0);
      h.(contentType := TrimLeading(if colon.Some? then line[colon.value + 1..] else line))
    else h
  }

  /** Header fields of the lines (`std::getline`) at or after `i`. */
  function LineAt(hdrs: string, i: nat): string
    requires i <= |hdrs|
  {
    match IndexOf(hdrs, "\n", i)
    case None => hdrs[i..]
    case Some(j) => hdrs[i..j]
  }

  function NextLine(hdrs: string, i: nat): (next: nat)
    requires i < |hdrs|
    ensures i < next <= |hdrs|
  {
    match IndexOf(hdrs, "\n", i)
    case None => |hdrs|
    case Some(j) => j + 1
  }

  function ReadHeaders(hdrs: string, i: nat, h: Headers): Headers
    requires i <= |hdrs|
    decreases |hdrs| - i
  {
    if i == |hdrs| then h
    else ReadHeaders(hdrs, NextLine(hdrs, i), ReadHeader(h, DropCr(LineAt(hdrs, i))))
  }

  const NO_HEADERS := Headers("", "", "")

  // ---------------------------------------------------------------- the parser

  function Stored(parts: map<string, Part>, h: Headers, data: string): map<string, Part> {
    if h.name == "" then parts else parts[h.name := Part(h.filename, h.contentType, data)]
  }

  function FirstDelim(boundary: string): string {
    "--" + boundary
  }

  function PartDelim(boundary: string): string {
    "\r\n--" + boundary
  }

  /** What is found just past a delimiter: the end, a broken part, or a part and the next such place. */
  datatype PartStep = End | Broken | Found(hdrs: string, data: string, next: nat)

  predicate TwoAt(s: string, i: nat, c: char, d: char) {
    i + 2 <= |s| && s[i] == c && s[i + 1] == d
  }

  /** Text up to the blank line, then text up to the delimiter. */
  function Split(body: string, blank: string, delim: string, pos: nat): (r: PartStep)
    requires pos <= |body|
    ensures r.Found? ==> pos <= r.next <= |body|
  {
    var hdrsEnd := IndexOf(body, blank, pos);
    if hdrsEnd.None? then Broken
    else DataAfter(body, delim, body[pos..hdrsEnd.value], hdrsEnd.value + |blank|)
  }

  function DataAfter(body: string, delim: string, hdrs: string, start: nat): (r: PartStep)
    requires start <= |body|
    ensures r.Found? ==> start <= r.next <= |body|
  {
    var next := IndexOf(body, delim, start);
    if next.None? then Broken else Found(hdrs, body[start..next.value], next.value + |delim|)
  }

  function NextPart(body: string, delim: string, pos: nat): (r: PartStep)
    requires pos <= |body|
    ensures r.Found? ==> pos < r.next <= |body|
  {
    if TwoAt(body, pos, '-', '-') || !TwoAt(body, pos, '\r', '\n') then End
    else Split(body, "\r\n\r\n", delim, pos + 2)
  }

  function PartsFrom(body: string, delim: string, pos: nat, parts: map<string, Part>): ParseResult
    requires pos <= |body|
    decreases |body| - pos
  {
    match NextPart(body, delim, pos)
    case End => Parsed(parts)
    case Broken => Threw
    case Found(hdrs, data, next) => PartsFrom(body, delim, next, Stored(parts, ReadHeaders(hdrs, 0, NO_HEADERS), data))
  }

  function Parsing(body: string, boundary: string): ParseResult {
    var first := IndexOf(body, FirstDelim(boundary), 0);
    if first.None? then Threw
    else PartsFrom(body, PartDelim(boundary), first.value + |FirstDelim(boundary)|, map[])
  }

  method Parse(body: string, boundary: string) returns (r: ParseResult)
    ensures r == Parsing(body, boundary)
  {
    var firstDelim, partDelim := FirstDelim(boundary), PartDelim(boundary);
    var first := IndexOf(body, firstDelim, 0);
    if first.None? {
      return Threw;
    }
    var parts: map<string, Part>, pos := map[], first.value + |firstDelim|;
    ghost var goal := PartsFrom(body, partDelim, pos, parts);
    assert goal == Parsing(body, boundary);
    while true
      invariant pos <= |body|
      invariant goal == PartsFrom(body, partDelim, pos, parts)
      decreases |body| - pos
    {
      var step := ParsePart(body, partDelim, pos);
      match step
      case End => return Parsed(parts);
      case Broken => return Threw;
      case Found(hdrs, data, next) =>
        var h := ParseHeaders(hdrs);
        if h.name != "" {
          parts := parts[h.name := Part(h.filename, h.contentType, data)];
        }
        pos := next;
    }
  }

  /** Delimits one part, as one iteration of the source's loop does. */
  method ParsePart(body: string, delim: string, pos: nat) returns (r: PartStep)
    requires pos <= |body|
    ensures r == NextPart(body, delim, pos)
  {
    if TwoAt(body, pos, '-', '-') || !TwoAt(body, pos, '\r', '\n') {
      return End;
    }
    var hdrsEnd := IndexOf(body, "\r\n\r\n", pos + 2);
    if hdrsEnd.None? {
      return Broken;
    }
    var start := hdrsEnd.value + 4;
    var next := IndexOf(body, delim, start);
    if next.None? {
      return Broken;
    }
    return Found(body[pos + 2..hdrsEnd.value], body[start..next.value], next.value + |delim|);
  }

  method ParseHeaders(hdrs: string) returns (h: Headers)
    ensures h == ReadHeaders(hdrs, 0, NO_HEADERS)
  {
    h := NO_HEADERS;
    var i := 0;
    ghost var goal := ReadHeaders(hdrs, 0, NO_HEADERS);
    while i < |hdrs|
      invariant i <= |hdrs|
      invariant ReadHeaders(hdrs, i, h) == goal
    {
      var eol := IndexOf(hdrs, "\n", i);
      var line := if eol.Some? then hdrs[i..eol.value] else hdrs[i..];
      assert line == LineAt(hdrs, i);
      h := ReadHeader(h, DropCr(line));
      i := if eol.Some? then eol.value + 1 else |hdrs|;
    }
  }

  // ---------------------------------------------------------------- the printer

  datatype Field = Field(name: string, part: Part)

  const DISPOSITION := "Content-Disposition: form-data; "
  const TYPE_KEY := "Content-Type:"
  const TYPE := TYPE_KEY + " "

  function DispositionLine(name: string, filename: string): string {
    DISPOSITION + NAME + name + "\"" + if filename == "" then "" else "; " + FILENAME + filename + "\""
  }

  function PrintHeaders(f: Field): string {
    DispositionLine(f.name, f.part.filename) +
    if f.part.contentType == "" then "" else "\r\n" + TYPE + f.part.contentType
  }

  /** What follows a delimiter: the remaining fields, then the closing dashes and anything at all. */
  function PrintRest(fields: seq<Field>, boundary: string, epilogue: string): string {
    if fields == [] then "--" + epilogue
    else
      "\r\n" + PrintHeaders(fields[0]) + "\r\n\r\n" + fields[0].part.data + PartDelim(boundary) +
      PrintRest(fields[1..], boundary, epilogue)
  }

  function Print(preamble: string, fields: seq<Field>, boundary: string, epilogue: string): string {
    preamble + FirstDelim(boundary) + PrintRest(fields, boundary, epilogue)
  }

  function With(parts: map<string, Part>, f: Field): map<string, Part> {
    if f.name == "" then parts else parts[f.name := f.part]
  }

  /** Fields by name; those without one are dropped, and of two with the same name the later wins. */
  function Collected(fields: seq<Field>, parts: map<string, Part>): map<string, Part> {
    if fields == [] then parts else Collected(fields[1..], With(parts, fields[0]))
  }

  predicate Without(s: string, c: char) {
    forall i :: 0 <= i < |s| ==> s[i] != c
  }

  predicate HeaderSafe(s: string) {
    Without(s, '\r') && Without(s, '\n') && Without(s, '"')
  }

  predicate EndsWith(s: string, tail: string) {
    |tail| <= |s| && s[|s| - |tail|..] == tail
  }

  /** The one trap of the printed form: a name that ends in `filename=` opens a false parameter. */
  predicate FilenameReadable(name: string, filename: string) {
    EndsWith(name, "filename=") ==> filename == "" || filename == "; filename="
  }

  predicate HeadersPrintable(f: Field) {
    && HeaderSafe(f.name) && HeaderSafe(f.part.filename)
    && FilenameReadable(f.name, f.part.filename)
    && Without(f.part.contentType, '\r') && Without(f.part.contentType, '\n')
    && (f.part.contentType != "" ==> f.part.contentType[0] != ' ')
  }

  predicate Lacks(s: string, needle: string) {
    forall i :: 0 <= i <= |s| ==> !At(s, needle, i)
  }

  predicate Printable(f: Field, boundary: string) {
    HeadersPrintable(f) && Lacks(f.part.data, PartDelim(boundary))
  }

  // ---------------------------------------------------------------- reading a printed disposition

  lemma NameReads(name: string, filename: string)
    requires HeaderSafe(name)
    ensures Value(DispositionLine(name, filename), NAME) == name
  {
    var line, p := DispositionLine(name, filename), |DISPOSITION|;
    var rest := name + "\"" + if filename == "" then "" else "; " + FILENAME + filename + "\"";
    assert line == DISPOSITION + NAME + rest;
    AtAfter(DISPOSITION, NAME, rest);
    forall k | 0 <= k < p ensures !At(line, NAME, k) {
      RuledOut(line, NAME, k, 5);
    }
    FirstIs(line, NAME, 0, p);
    QuotedValue(line, p + 6, name);
  }

  /** From an opening quote to the next one. */
  lemma QuotedValue(line: string, start: nat, value: string)
    requires Without(value, '"') && start + |value| < |line|
    requires line[start..start + |value|] == value && line[start + |value|] == '"'
    ensures IndexOf(line, "\"", start) == Some(start + |value|)
  {
    var end := start + |value|;
    assert At(line, "\"", end);
    forall k | start <= k < end ensures !At(line, "\"", k) {
      assert line[k] == value[k - start];
      RuledOut(line, "\"", k, 0);
    }
    FirstIs(line, "\"", start, end);
  }

  /** Positions of the quotes of a printed disposition line. */
  lemma QuotesOf(name: string, filename: string)
    requires HeaderSafe(name) && HeaderSafe(filename)
    ensures var line, q := DispositionLine(name, filename), |DISPOSITION| + 5;
      && q + 1 + |name| < |line|
      && line[q + 1..q + 1 + |name|] == name && line[q + 1 + |name|] == '"'
      && forall k :: 0 <= k < |line| && line[k] == '"' ==>
           || k == q || k == q + 1 + |name|
           || (filename != "" && (k == q + |name| + 13 || k == q + |name| + 14 + |filename|))
  {
    var line, q := DispositionLine(name, filename), |DISPOSITION| + 5;
    var first := DISPOSITION + NAME;
    if filename == "" {
      assert line == first + name + "\"";
    } else {
      assert line == first + name + "\"" + "; " + FILENAME + filename + "\"";
    }
    forall k | 0 <= k < |line| && line[k] == '"'
      ensures || k == q || k == q + 1 + |name|
              || (filename != "" && (k == q + |name| + 13 || k == q + |name| + 14 + |filename|))
    {
    }
  }

  /** A parameter `filename="` can only be seen where a quote follows `filename=`. */
  lemma FalseFilename(name: string, filename: string, k: nat)
    requires HeaderSafe(name) && HeaderSafe(filename)
    requires At(DispositionLine(name, filename), FILENAME, k)
    ensures var close := |DISPOSITION| + 6 + |name|;
      || (k + 9 == close && EndsWith(name, "filename="))
      || (filename != "" && k + 9 == close + 12)
      || (filename != "" && k + 9 == close + 13 + |filename|)
  {
    var line, q := DispositionLine(name, filename), |DISPOSITION| + 5;
    QuotesOf(name, filename);
    AtChars(line, FILENAME, k, 9);
    AtChars(line, FILENAME, k, 3);
    if k + 9 == q + 1 + |name| {
      if k <= q {
        AtChars(line, FILENAME, k, q - k);
      }
      assert name[|name| - 9..] == line[k..k + 9] == FILENAME[..9] == "filename=";
    }
  }

  lemma FilenameReadsEmpty(name: string)
    requires HeaderSafe(name)
    ensures Value(DispositionLine(name, ""), FILENAME) == ""
  {
    var line := DispositionLine(name, "");
    IndexOfIsFirst(line, FILENAME, 0);
    var found := IndexOf(line, FILENAME, 0);
    if found.Some? {
      FalseFilename(name, "", found.value);
      assert |line| == |DISPOSITION| + 7 + |name|;
    }
  }

  lemma FilenameReadsTrue(name: string, filename: string)
    requires HeaderSafe(name) && HeaderSafe(filename) && filename != "" && !EndsWith(name, "filename=")
    ensures Value(DispositionLine(name, filename), FILENAME) == filename
  {
    var line, close := DispositionLine(name, filename), |DISPOSITION| + 6 + |name|;
    var head := DISPOSITION + NAME + name + "\"; ";
    assert line == head + FILENAME + (filename + "\"");
    AtAfter(head, FILENAME, filename + "\"");
    IndexOfIsFirst(line, FILENAME, 0);
    var found := IndexOf(line, FILENAME, 0);
    FalseFilename(name, filename, found.value);
    assert found.value == close + 3;
    QuotedValue(line, close + 13, filename);
  }

  lemma FilenameReadsFalse(name: string, filename: string)
    requires HeaderSafe(name) && HeaderSafe(filename) && filename != "" && EndsWith(name, "filename=")
    ensures Value(DispositionLine(name, filename), FILENAME) == "; filename="
  {
    var line, close := DispositionLine(name, filename), |DISPOSITION| + 6 + |name|;
    FalseFilenameIsThere(name, filename);
    IndexOfIsFirst(line, FILENAME, 0);
    var found := IndexOf(line, FILENAME, 0);
    FalseFilename(name, filename, found.value);
    FalseValue(name, filename);
  }

  lemma FalseValue(name: string, filename: string)
    requires filename != "" && EndsWith(name, "filename=")
    requires IndexOf(DispositionLine(name, filename), FILENAME, 0) == Some(|DISPOSITION| + |name| - 3)
    ensures Value(DispositionLine(name, filename), FILENAME) == "; filename="
  {
    var line, close := DispositionLine(name, filename), |DISPOSITION| + 6 + |name|;
    var value := "; filename=";
    assert line == DISPOSITION + NAME + name + "\"" + (value + "\"" + filename + "\"");
    assert line[close + 1..close + 12] == value;
    QuotedValue(line, close + 1, value);
  }

  /** The name's own ending, and the quote that closes the name, look like the parameter. */
  lemma FalseFilenameIsThere(name: string, filename: string)
    requires filename != "" && EndsWith(name, "filename=")
    ensures At(DispositionLine(name, filename), FILENAME, |DISPOSITION| + |name| - 3)
  {
    var head := DISPOSITION + NAME + name[..|name| - 9];
    var rest := "; filename=\"" + filename + "\"";
    assert DispositionLine(name, filename) == head + FILENAME + rest;
    AtAfter(head, FILENAME, rest);
  }

  /** The exact condition under which a printed file name is read back. */
  lemma FilenameRoundTrip(name: string, filename: string)
    requires HeaderSafe(name) && HeaderSafe(filename)
    ensures Value(DispositionLine(name, filename), FILENAME) == filename <==> FilenameReadable(name, filename)
  {
    if filename == "" {
      FilenameReadsEmpty(name);
    } else if EndsWith(name, "filename=") {
      FilenameReadsFalse(name, filename);
    } else {
      FilenameReadsTrue(name, filename);
    }
  }

  // ---------------------------------------------------------------- reading printed headers

  lemma DispositionKey(rest: string)
    ensures HasKey(DISPOSITION + rest, "content-disposition:")
  {
    var line, key := DISPOSITION + rest, "content-disposition:";
    assert |key| == 20;
    assert forall i :: 0 <= i < |key| ==> line[i] == DISPOSITION[i];
    assert forall i :: 0 <= i < |key| ==> Lower(DISPOSITION[i]) == key[i];
  }

  lemma TypeKey(rest: string)
    ensures HasKey(TYPE_KEY + rest, "content-type:") && !HasKey(TYPE_KEY + rest, "content-disposition:")
    ensures IndexOf(TYPE_KEY + rest, ":", 0) == Some(12)
  {
    var line, key := TYPE_KEY + rest, "content-type:";
    assert |key| == 13;
    assert forall i :: 0 <= i < |key| ==> line[i] == TYPE_KEY[i];
    assert forall i :: 0 <= i < |key| ==> Lower(TYPE_KEY[i]) == key[i];
    assert Lower(line[8]) == 't';
    assert At(line, ":", 12);
    forall k | 0 <= k < 12 ensures !At(line, ":", k) {
      assert line[k] == TYPE_KEY[k];
      assert TYPE_KEY[k] != ':';
      RuledOut(line, ":", k, 0);
    }
    FirstIs(line, ":", 0, 12);
  }

  lemma NoLineFeed(s: string, i: nat)
    requires i <= |s| && forall k :: i <= k < |s| ==> s[k] != '\n'
    ensures IndexOf(s, "\n", i) == None
  {
    IndexOfIsFirst(s, "\n", i);
    if IndexOf(s, "\n", i).Some? {
      AtChars(s, "\n", IndexOf(s, "\n", i).value, 0);
    }
  }

  lemma LineReads(line: string, h: Headers)
    requires Without(line, '\r') && Without(line, '\n') && line != ""
    ensures ReadHeaders(line, 0, h) == ReadHeader(h, line)
  {
    assert line[0..] == line && DropCr(line) == line;
    NoLineFeed(line, 0);
  }

  lemma HeadersRead(f: Field)
    requires HeadersPrintable(f)
    ensures ReadHeaders(PrintHeaders(f), 0, NO_HEADERS) == Headers(f.name, f.part.filename, f.part.contentType)
  {
    var d, ct := DispositionLine(f.name, f.part.filename), f.part.contentType;
    DispositionIsOneLine(f.name, f.part.filename);
    DispositionReads(f.name, f.part.filename);
    if ct == "" {
      assert PrintHeaders(f) == d;
      LineReads(d, NO_HEADERS);
    } else {
      assert PrintHeaders(f) == d + "\r\n" + (TYPE + ct);
      BothRead(d, ct, Headers(f.name, f.part.filename, ""));
    }
  }

  lemma BothRead(d: string, ct: string, h: Headers)
    requires d != "" && Without(d, '\r') && Without(d, '\n') && ReadHeader(NO_HEADERS, d) == h
    requires ct != "" && ct[0] != ' ' && Without(ct, '\r') && Without(ct, '\n')
    ensures ReadHeaders(d + "\r\n" + (TYPE + ct), 0, NO_HEADERS) == h.(contentType := ct)
  {
    TypeIsOneLine(ct);
    TwoLines(d, TYPE + ct, NO_HEADERS);
    OneSpace(ct);
    TypeReadsSpaced(h, 1, ct);
  }

  lemma OneSpace(ct: string)
    ensures TYPE + ct == TYPE_KEY + (Spaces(1) + ct)
  {
  }

  lemma TypeIsOneLine(ct: string)
    requires Without(ct, '\r') && Without(ct, '\n')
    ensures Without(TYPE + ct, '\r') && Without(TYPE + ct, '\n') && TYPE + ct != ""
  {
    assert Without(TYPE, '\r') && Without(TYPE, '\n');
  }

  lemma DispositionReads(name: string, filename: string)
    requires HeaderSafe(name) && HeaderSafe(filename) && FilenameReadable(name, filename)
    ensures ReadHeader(NO_HEADERS, DispositionLine(name, filename)) == Headers(name, filename, "")
  {
    var d := DispositionLine(name, filename);
    assert d == DISPOSITION + d[|DISPOSITION|..];
    DispositionKey(d[|DISPOSITION|..]);
    NameReads(name, filename);
    FilenameRoundTrip(name, filename);
  }

  lemma DispositionIsOneLine(name: string, filename: string)
    requires HeaderSafe(name) && HeaderSafe(filename)
    ensures var d := DispositionLine(name, filename); d != "" && Without(d, '\r') && Without(d, '\n')
  {
    assert Without(DISPOSITION, '\r') && Without(DISPOSITION, '\n');
  }

  /** Letter by letter the same, or the same letter in upper case. */
  predicate SameLetters(line: string, key: string)
    requires |key| <= |line|
  {
    forall i :: 0 <= i < |key| ==>
      line[i] == key[i] || ('a' <= key[i] <= 'z' && line[i] as int + 32 == key[i] as int)
  }

  /** A header is recognised in any mix of cases, and only by its own letters. */
  lemma KeyInAnyCase(line: string, key: string)
    requires forall i :: 0 <= i < |key| ==> !('A' <= key[i] <= 'Z')
    ensures HasKey(line, key) <==> |key| <= |line| && SameLetters(line, key)
  {
  }

  /** A parameter is what stands between its opening quote and the next quote. */
  lemma ValueIsQuoted(header: string, needle: string, p: nat, q: nat)
    requires FirstAt(header, needle, 0, p) && FirstAt(header, "\"", p + |needle|, q)
    ensures p + |needle| <= q <= |header| && Value(header, needle) == header[p + |needle|..q]
  {
    FirstIs(header, needle, 0, p);
    FirstIs(header, "\"", p + |needle|, q);
  }

  /** Without its key, or without a closing quote, it is empty. */
  lemma NoValueIsEmpty(header: string, needle: string, p: nat)
    requires NeverAt(header, needle, 0) || (FirstAt(header, needle, 0, p) && NeverAt(header, "\"", p + |needle|))
    ensures Value(header, needle) == ""
  {
    SearchSays(header, needle, 0);
    if FirstAt(header, needle, 0, p) {
      SearchSays(header, "\"", p + |needle|);
    }
  }

  function Spaces(n: nat): string {
    seq(n, _ => ' ')
  }

  lemma {:induction false} SpacesAreSkipped(n: nat, s: string)
    requires s == "" || s[0] != ' '
    ensures SkipSpaces(Spaces(n) + s) == s
  {
    if n > 0 {
      SpacesAreSkipped(n - 1, s);
      assert (Spaces(n) + s)[1..] == Spaces(n - 1) + s;
    } else {
      assert Spaces(0) + s == s;
    }
  }

  lemma TypeLine(h: Headers, rest: string)
    ensures ReadHeader(h, TYPE_KEY + rest) == h.(contentType := TrimLeading(rest))
  {
    TypeKey(rest);
    assert (TYPE_KEY + rest)[13..] == rest;
  }

  /** Any number of spaces before a content type is dropped, unless there is nothing else. */
  lemma TypeReadsSpaced(h: Headers, n: nat, ct: string)
    requires ct == "" || ct[0] != ' '
    ensures ReadHeader(h, TYPE_KEY + (Spaces(n) + ct)) == h.(contentType := if ct == "" then Spaces(n) else ct)
  {
    TypeLine(h, Spaces(n) + ct);
    SpacesAreSkipped(n, ct);
    assert Spaces(n) + "" == Spaces(n);
  }

  lemma LinesOfTwo(d: string, t: string, hdrs: string)
    requires Without(d, '\n') && Without(t, '\n') && hdrs == d + "\r\n" + t
    ensures LineAt(hdrs, 0) == d + "\r" && NextLine(hdrs, 0) == |d| + 2
    ensures t != "" ==> LineAt(hdrs, |d| + 2) == t && NextLine(hdrs, |d| + 2) == |hdrs|
  {
    forall k | 0 <= k < |d| + 1 ensures !At(hdrs, "\n", k) {
      RuledOut(hdrs, "\n", k, 0);
    }
    FirstIs(hdrs, "\n", 0, |d| + 1);
    NoLineFeed(hdrs, |d| + 2);
    assert hdrs[0..|d| + 1] == d + "\r" && hdrs[|d| + 2..] == t;
  }

  lemma TwoLines(d: string, t: string, h: Headers)
    requires d != "" && Without(d, '\r') && Without(d, '\n')
    requires t != "" && Without(t, '\r') && Without(t, '\n')
    ensures ReadHeaders(d + "\r\n" + t, 0, h) == ReadHeader(ReadHeader(h, d), t)
  {
    var hdrs := d + "\r\n" + t;
    LinesOfTwo(d, t, hdrs);
    assert DropCr(d + "\r") == d && DropCr(t) == t;
    TwoReads(hdrs, |d| + 2, h, ReadHeader(h, d), ReadHeader(ReadHeader(h, d), t));
  }

  lemma TwoReads(hdrs: string, i: nat, h: Headers, h1: Headers, h2: Headers)
    requires hdrs != "" && NextLine(hdrs, 0) == i < |hdrs| && NextLine(hdrs, i) == |hdrs|
    requires h1 == ReadHeader(h, DropCr(LineAt(hdrs, 0))) && h2 == ReadHeader(h1, DropCr(LineAt(hdrs, i)))
    ensures ReadHeaders(hdrs, 0, h) == h2
  {
    assert ReadHeaders(hdrs, i, h1) == ReadHeaders(hdrs, |hdrs|, h2);
  }

  // ---------------------------------------------------------------- one part, then all of them

  /** A carriage return is always followed by something else two places on. */
  predicate NoBlankLine(h: string) {
    forall j :: 0 <= j < |h| && h[j] == '\r' ==> j + 2 < |h| && h[j + 2] != '\r'
  }

  lemma HeadersHaveNoBlankLine(f: Field)
    requires HeadersPrintable(f)
    ensures NoBlankLine(PrintHeaders(f))
  {
    var d, h := DispositionLine(f.name, f.part.filename), PrintHeaders(f);
    DispositionIsOneLine(f.name, f.part.filename);
    TypeIsOneLine(f.part.contentType);
    if f.part.contentType == "" {
      assert h == d;
    } else {
      var t := TYPE + f.part.contentType;
      assert h == d + "\r\n" + t;
      forall j | 0 <= j < |h| && h[j] == '\r' ensures j + 2 < |h| && h[j + 2] != '\r' {
        assert j == |d| && h[j + 2] == t[0];
      }
    }
  }

  lemma BlankLineFound(h: string, rest: string)
    requires NoBlankLine(h)
    ensures IndexOf(h + "\r\n\r\n" + rest, "\r\n\r\n", 0) == Some(|h|)
  {
    var tail := h + "\r\n\r\n" + rest;
    AtAfter(h, "\r\n\r\n", rest);
    forall k | 0 <= k < |h| ensures !At(tail, "\r\n\r\n", k) {
      assert tail[k] == h[k];
      if h[k] == '\r' {
        assert tail[k + 2] == h[k + 2];
        RuledOut(tail, "\r\n\r\n", k, 2);
      } else {
        RuledOut(tail, "\r\n\r\n", k, 0);
      }
    }
    FirstIs(tail, "\r\n\r\n", 0, |h|);
  }

  /** A delimiter cannot straddle the data and the real delimiter: only its first byte is a CR. */
  lemma DelimiterFound(data: string, boundary: string, rest: string)
    requires Without(boundary, '\r')
    requires Lacks(data, PartDelim(boundary))
    ensures IndexOf(data + PartDelim(boundary) + rest, PartDelim(boundary), 0) == Some(|data|)
  {
    var delim := PartDelim(boundary);
    var tail := data + delim + rest;
    AtAfter(data, delim, rest);
    forall k | 0 <= k < |data| ensures !At(tail, delim, k) {
      if k + |delim| <= |data| {
        assert tail[k..k + |delim|] == data[k..k + |delim|];
        assert !At(data, delim, k);
      } else {
        assert tail[|data|] == '\r' && delim[|data| - k] != '\r';
        RuledOut(tail, delim, k, |data| - k);
      }
    }
    FirstIs(tail, delim, 0, |data|);
  }

  lemma TextFound(body: string, start: nat, tail: string, data: string, delim: string, rest: string)
    requires start <= |body| && body[start..] == tail && tail == data + delim + rest
    requires IndexOf(tail, delim, 0) == Some(|data|)
    ensures start + |data| + |delim| <= |body| && IndexOf(body, delim, start) == Some(start + |data|)
    ensures body[start..start + |data|] == data
    ensures body[start + |data| + |delim|..] == rest
  {
    FoundInTail(body, start, delim, 0);
    assert body[start..start + |data|] == tail[..|data|] == data;
    assert body[start + |data| + |delim|..] == tail[|data| + |delim|..] == rest;
  }

  lemma HeadersEndAt(body: string, blank: string, delim: string, pos: nat, h: string, start: nat)
    requires pos + |h| <= |body| && IndexOf(body, blank, pos) == Some(pos + |h|) && body[pos..pos + |h|] == h
    requires start == pos + |h| + |blank|
    ensures start <= |body| && Split(body, blank, delim, pos) == DataAfter(body, delim, h, start)
  {
  }

  lemma DataEndsAt(body: string, delim: string, h: string, start: nat, data: string)
    requires start + |data| <= |body| && IndexOf(body, delim, start) == Some(start + |data|)
    requires body[start..start + |data|] == data
    ensures DataAfter(body, delim, h, start) == Found(h, data, start + |data| + |delim|)
  {
  }

  lemma SplitReads(body: string, pos: nat, tail: string, h: string, blank: string, tail': string, delim: string)
    requires pos <= |body| && body[pos..] == tail
    requires tail == h + blank + tail' && IndexOf(tail, blank, 0) == Some(|h|)
    ensures var start := pos + |h| + |blank|;
      start <= |body| && body[start..] == tail' && Split(body, blank, delim, pos) == DataAfter(body, delim, h, start)
  {
    TextFound(body, pos, tail, h, blank, tail');
    HeadersEndAt(body, blank, delim, pos, h, pos + |h| + |blank|);
  }

  lemma DataReads(body: string, start: nat, h: string, tail: string, data: string, delim: string, rest: string)
    requires start <= |body| && body[start..] == tail
    requires tail == data + delim + rest && IndexOf(tail, delim, 0) == Some(|data|)
    ensures var next := start + |data| + |delim|;
      DataAfter(body, delim, h, start) == Found(h, data, next) && next <= |body| && body[next..] == rest
  {
    TextFound(body, start, tail, data, delim, rest);
    DataEndsAt(body, delim, h, start, data);
  }

  lemma HeadersPart(body: string, pos: nat, h: string, blank: string, tail: string, delim: string)
    requires NoBlankLine(h) && blank == "\r\n\r\n" && pos <= |body|
    requires body[pos..] == h + blank + tail
    ensures var start := pos + |h| + |blank|;
      && start <= |body| && body[start..] == tail
      && Split(body, blank, delim, pos) == DataAfter(body, delim, h, start)
  {
    BlankLineFound(h, tail);
    SplitReads(body, pos, h + blank + tail, h, blank, tail, delim);
  }

  lemma DataPart(body: string, start: nat, h: string, tail: string, data: string, boundary: string, rest: string)
    requires Without(boundary, '\r') && Lacks(data, PartDelim(boundary))
    requires start <= |body| && body[start..] == tail && tail == data + PartDelim(boundary) + rest
    ensures var next := start + |data| + |PartDelim(boundary)|;
      && DataAfter(body, PartDelim(boundary), h, start) == Found(h, data, next)
      && next <= |body| && body[next..] == rest
  {
    DelimiterFound(data, boundary, rest);
    DataReads(body, start, h, tail, data, PartDelim(boundary), rest);
  }

  lemma PartRead(body: string, pos: nat, h: string, blank: string, data: string, boundary: string,
                 tail: string, rest: string)
    requires NoBlankLine(h) && blank == "\r\n\r\n" && Lacks(data, PartDelim(boundary)) && Without(boundary, '\r')
    requires pos <= |body| && body[pos..] == h + blank + tail && tail == data + PartDelim(boundary) + rest
    ensures var next := pos + |h| + |blank| + |data| + |PartDelim(boundary)|;
      && Split(body, blank, PartDelim(boundary), pos) == Found(h, data, next)
      && next <= |body| && body[next..] == rest
  {
    HeadersPart(body, pos, h, blank, tail, PartDelim(boundary));
    DataPart(body, pos + |h| + |blank|, h, tail, data, boundary, rest);
  }

  predicate AllPrintable(fields: seq<Field>, boundary: string) {
    fields == [] || (Printable(fields[0], boundary) && AllPrintable(fields[1..], boundary))
  }

  lemma {:induction false} PartsRead(body: string, pos: nat, fields: seq<Field>, boundary: string, epilogue: string,
                                        parts: map<string, Part>)
    requires Without(boundary, '\r') && pos <= |body| && body[pos..] == PrintRest(fields, boundary, epilogue)
    requires AllPrintable(fields, boundary)
    ensures PartsFrom(body, PartDelim(boundary), pos, parts) == Parsed(Collected(fields, parts))
    decreases |fields|
  {
    if fields == [] {
      assert body[pos] == body[pos..][0] == '-' && body[pos + 1] == body[pos..][1] == '-';
    } else {
      var f, delim := fields[0], PartDelim(boundary);
      var next := FirstPartRead(fields, boundary, epilogue, body, pos);
      PartsRead(body, next, fields[1..], boundary, epilogue, With(parts, f));
      StepOver(body, delim, pos, parts, f, next);
    }
  }

  lemma FirstPartRead(fields: seq<Field>, boundary: string, epilogue: string, body: string, pos: nat) returns (next: nat)
    requires fields != [] && AllPrintable(fields, boundary) && Without(boundary, '\r')
    requires pos <= |body| && body[pos..] == PrintRest(fields, boundary, epilogue)
    ensures NextPart(body, PartDelim(boundary), pos) == Found(PrintHeaders(fields[0]), fields[0].part.data, next)
    ensures next <= |body| && body[next..] == PrintRest(fields[1..], boundary, epilogue)
  {
    var rest, h := PrintRest(fields[1..], boundary, epilogue), PrintHeaders(fields[0]);
    PrintedPart(fields, boundary, epilogue, body, pos);
    HeadersHaveNoBlankLine(fields[0]);
    next := OnePartRead(body, pos, h, fields[0].part.data, boundary, rest);
  }

  lemma OnePartRead(body: string, pos: nat, h: string, data: string, boundary: string, rest: string) returns (next: nat)
    requires NoBlankLine(h) && Lacks(data, PartDelim(boundary)) && Without(boundary, '\r')
    requires TwoAt(body, pos, '\r', '\n') && body[pos + 2..] == h + "\r\n\r\n" + (data + PartDelim(boundary) + rest)
    ensures NextPart(body, PartDelim(boundary), pos) == Found(h, data, next) && next <= |body| && body[next..] == rest
  {
    PartRead(body, pos + 2, h, "\r\n\r\n", data, boundary, data + PartDelim(boundary) + rest, rest);
    next := pos + 2 + |h| + 4 + |data| + |PartDelim(boundary)|;
  }

  lemma StepOver(body: string, delim: string, pos: nat, parts: map<string, Part>, f: Field, next: nat)
    requires pos <= |body| && HeadersPrintable(f)
    requires NextPart(body, delim, pos) == Found(PrintHeaders(f), f.part.data, next)
    ensures PartsFrom(body, delim, pos, parts) == PartsFrom(body, delim, next, With(parts, f))
  {
    HeadersRead(f);
  }

  lemma PrintedPart(fields: seq<Field>, boundary: string, epilogue: string, body: string, pos: nat)
    requires fields != [] && pos <= |body| && body[pos..] == PrintRest(fields, boundary, epilogue)
    ensures TwoAt(body, pos, '\r', '\n')
    ensures body[pos + 2..] == PrintHeaders(fields[0]) + "\r\n\r\n" +
      (fields[0].part.data + PartDelim(boundary) + PrintRest(fields[1..], boundary, epilogue))
  {
    var f, rest := fields[0], PrintRest(fields[1..], boundary, epilogue);
    PartShape(body, pos, "\r\n", PrintHeaders(f), "\r\n\r\n", f.part.data, PartDelim(boundary), rest);
    assert body[pos] == body[pos..][0] && body[pos + 1] == body[pos..][1];
  }

  lemma PartShape(body: string, pos: nat, crlf: string, h: string, blank: string, data: string, delim: string, rest: string)
    requires pos <= |body| && body[pos..] == crlf + h + blank + data + delim + rest
    ensures pos + |crlf| <= |body| && body[pos + |crlf|..] == h + blank + (data + delim + rest)
    ensures body[pos..][..|crlf|] == crlf
  {
    assert body[pos..] == crlf + (h + blank + (data + delim + rest));
    assert body[pos + |crlf|..] == body[pos..][|crlf|..];
  }

  lemma ParsingFrom(body: string, boundary: string, first: nat, pos: nat)
    requires IndexOf(body, FirstDelim(boundary), 0) == Some(first) && pos == first + |FirstDelim(boundary)|
    ensures Parsing(body, boundary) == PartsFrom(body, PartDelim(boundary), pos, map[])
  {
    var found := IndexOf(body, FirstDelim(boundary), 0);
    assert found.value == first;
  }

  /**
    Parsing undoes printing, for every list of printable fields, after any preamble in which the first
    delimiter does not occur early and before any epilogue.
  */
  lemma RoundTrip(preamble: string, fields: seq<Field>, boundary: string, epilogue: string)
    requires Without(boundary, '\r') && AllPrintable(fields, boundary)
    requires IndexOf(preamble + FirstDelim(boundary), FirstDelim(boundary), 0) == Some(|preamble|)
    ensures Parsing(Print(preamble, fields, boundary, epilogue), boundary) == Parsed(Collected(fields, map[]))
  {
    var first, rest := FirstDelim(boundary), PrintRest(fields, boundary, epilogue);
    var body, pos := preamble + first + rest, |preamble| + |first|;
    KeyStarts(preamble, first, rest, body, pos);
    ParsingFrom(body, boundary, |preamble|, pos);
    PartsRead(body, pos, fields, boundary, epilogue, map[]);
  }

  lemma KeyStarts(prefix: string, needle: string, value: string, text: string, end: nat)
    requires IndexOf(prefix + needle, needle, 0) == Some(|prefix|)
    requires text == prefix + needle + value && end == |prefix| + |needle|
    ensures IndexOf(text, needle, 0) == Some(|prefix|) && text[end..] == value
  {
    KeyIsFirst(prefix, needle, value);
    TailIs(prefix + needle, value);
  }

  lemma TailIs(head: string, tail: string)
    ensures (head + tail)[|head|..] == tail
  {
  }

  // ---------------------------------------------------------------- when parsing throws

  predicate FirstAt(s: string, needle: string, from: nat, p: nat) {
    from <= p && At(s, needle, p) && forall k :: from <= k < p ==> !At(s, needle, k)
  }

  predicate NeverAt(s: string, needle: string, from: nat) {
    forall k :: from <= k <= |s| ==> !At(s, needle, k)
  }

  lemma SearchSays(s: string, needle: string, from: nat)
    requires from <= |s|
    ensures forall p: nat :: FirstAt(s, needle, from, p) <==> IndexOf(s, needle, from) == Some(p)
    ensures NeverAt(s, needle, from) <==> IndexOf(s, needle, from) == None
  {
    IndexOfIsFirst(s, needle, from);
    forall p: nat ensures FirstAt(s, needle, from, p) <==> IndexOf(s, needle, from) == Some(p) {
      if FirstAt(s, needle, from, p) {
        FirstIs(s, needle, from, p);
      }
    }
  }

  /** Headers begin after a delimiter that ends at `p`, and the first blank line is at `h`. */
  predicate HeadersUpTo(body: string, p: nat, h: nat) {
    TwoAt(body, p, '\r', '\n') && FirstAt(body, "\r\n\r\n", p + 2, h)
  }

  predicate DataUpTo(body: string, boundary: string, h: nat, q: nat) {
    |boundary| + 4 <= q && FirstAt(body, "\r\n--" + boundary, h + 4, q - |boundary| - 4)
  }

  /** A whole part lies between the delimiters that end at `p` and `q`. */
  ghost predicate PartBetween(body: string, boundary: string, p: nat, q: nat) {
    exists h: nat :: HeadersUpTo(body, p, h) && DataUpTo(body, boundary, h, q)
  }

  /** A part begins at `p` and has no blank line, or no delimiter after it. */
  ghost predicate CutShort(body: string, boundary: string, p: nat) {
    && TwoAt(body, p, '\r', '\n')
    && (NeverAt(body, "\r\n\r\n", p + 2)
        || exists h: nat :: HeadersUpTo(body, p, h) && NeverAt(body, "\r\n--" + boundary, h + 4))
  }

  /** Ends of delimiters, one part apart. */
  ghost predicate Parts(body: string, boundary: string, ends: seq<nat>) {
    ends != [] && forall i :: 0 < i < |ends| ==> PartBetween(body, boundary, ends[i - 1], ends[i])
  }

  lemma NextPartSays(body: string, boundary: string, pos: nat)
    requires pos <= |body|
    ensures CutShort(body, boundary, pos) <==> NextPart(body, PartDelim(boundary), pos).Broken?
    ensures forall q: nat :: PartBetween(body, boundary, pos, q) <==>
      var step := NextPart(body, PartDelim(boundary), pos); step.Found? && step.next == q
  {
    if TwoAt(body, pos, '\r', '\n') {
      SearchSays(body, "\r\n\r\n", pos + 2);
      var found := IndexOf(body, "\r\n\r\n", pos + 2);
      assert NextPart(body, PartDelim(boundary), pos) == Split(body, "\r\n\r\n", PartDelim(boundary), pos + 2);
      if found.Some? {
        HeadersSay(body, boundary, pos, found.value);
      }
    }
  }

  /** With the blank line found, what follows decides. */
  lemma HeadersSay(body: string, boundary: string, pos: nat, h: nat)
    requires pos <= |body| && HeadersUpTo(body, pos, h) && IndexOf(body, "\r\n\r\n", pos + 2) == Some(h)
    ensures var step := DataAfter(body, PartDelim(boundary), body[pos + 2..h], h + 4);
      && (CutShort(body, boundary, pos) <==> step.Broken?)
      && (forall q: nat :: PartBetween(body, boundary, pos, q) <==> step.Found? && step.next == q)
  {
    DataSays(body, boundary, body[pos + 2..h], h);
    forall k: nat ensures HeadersUpTo(body, pos, k) <==> k == h {
      SearchSays(body, "\r\n\r\n", pos + 2);
    }
    assert !NeverAt(body, "\r\n\r\n", pos + 2);
  }

  lemma DataSays(body: string, boundary: string, hdrs: string, h: nat)
    requires h + 4 <= |body|
    ensures NeverAt(body, "\r\n--" + boundary, h + 4) <==> DataAfter(body, PartDelim(boundary), hdrs, h + 4).Broken?
    ensures forall q: nat :: DataUpTo(body, boundary, h, q) <==>
      var step := DataAfter(body, PartDelim(boundary), hdrs, h + 4); step.Found? && step.next == q
  {
    SearchSays(body, PartDelim(boundary), h + 4);
  }

  lemma {:induction false} ThrowsHasParts(body: string, boundary: string, pos: nat, parts: map<string, Part>)
    returns (ends: seq<nat>)
    requires pos <= |body| && PartsFrom(body, PartDelim(boundary), pos, parts) == Threw
    ensures Parts(body, boundary, ends) && ends[0] == pos && CutShort(body, boundary, ends[|ends| - 1])
    decreases |body| - pos
  {
    NextPartSays(body, boundary, pos);
    ends := [pos];
    var step := NextPart(body, PartDelim(boundary), pos);
    if step.Found? {
      var rest := ThrowsHasParts(body, boundary, step.next, Stored(parts, ReadHeaders(step.hdrs, 0, NO_HEADERS), step.data));
      ends := [pos] + rest;
    }
  }

  lemma {:induction false} PartsThrow(body: string, boundary: string, ends: seq<nat>, parts: map<string, Part>)
    requires Parts(body, boundary, ends) && ends[0] <= |body| && CutShort(body, boundary, ends[|ends| - 1])
    ensures PartsFrom(body, PartDelim(boundary), ends[0], parts) == Threw
    decreases |ends|
  {
    NextPartSays(body, boundary, ends[0]);
    if |ends| > 1 {
      assert PartBetween(body, boundary, ends[0], ends[1]);
      var step := NextPart(body, PartDelim(boundary), ends[0]);
      forall i | 0 < i < |ends[1..]| ensures PartBetween(body, boundary, ends[1..][i - 1], ends[1..][i]) {
        assert PartBetween(body, boundary, ends[i], ends[i + 1]);
      }
      PartsThrow(body, boundary, ends[1..], Stored(parts, ReadHeaders(step.hdrs, 0, NO_HEADERS), step.data));
    }
  }

  /** The whole parts after the first delimiter, and then one that is cut short. */
  ghost predicate EndsCutShort(body: string, boundary: string, ends: seq<nat>) {
    && Parts(body, boundary, ends) && CutShort(body, boundary, ends[|ends| - 1])
    && |boundary| + 2 <= ends[0] && FirstAt(body, "--" + boundary, 0, ends[0] - |boundary| - 2)
  }

  /**
    The parser throws if and only if there is no delimiter at all, or after some whole parts comes one
    without a blank line or without a delimiter behind it.
  */
  lemma ParseThrowsExactlyIf(body: string, boundary: string)
    ensures Parsing(body, boundary) == Threw <==>
      NeverAt(body, "--" + boundary, 0) || exists ends :: EndsCutShort(body, boundary, ends)
  {
    SearchSays(body, FirstDelim(boundary), 0);
    var first := IndexOf(body, FirstDelim(boundary), 0);
    if first.Some? {
      var pos := first.value + |FirstDelim(boundary)|;
      if Parsing(body, boundary) == Threw {
        var ends := ThrowsHasParts(body, boundary, pos, map[]);
        assert EndsCutShort(body, boundary, ends);
      } else if ends :| EndsCutShort(body, boundary, ends) {
        assert ends[0] == pos;
        PartsThrow(body, boundary, ends, map[]);
      }
    }
  }

  // ---------------------------------------------------------------- the boundary parameter

  predicate Trailing(c: char) {
    c == ';' || c == ' ' || c == '\r'
  }

  function StripTrailing(b: string): (r: string)
    ensures r <= b && (r != "" ==> !Trailing(r[|r| - 1]))
    ensures forall i :: |r| <= i < |b| ==> Trailing(b[i])
  {
    if b != "" && Trailing(b[|b| - 1]) then StripTrailing(b[..|b| - 1]) else b
  }

  function Unquoted(b: string): string {
    if |b| >= 2 && b[0] == '"' then
      var end := IndexOf(b, "\"", 1);
      if end.Some? then b[1..end.value] else b[1..]
    else b
  }

  function Boundary(contentType: string): string {
    var pos := IndexOf(contentType, "boundary=", 0);
    if pos.None? then "" else StripTrailing(Unquoted(contentType[pos.value + 9..]))
  }

  method ExtractBoundary(contentType: string) returns (b: string)
    ensures b == Boundary(contentType)
  {
    var pos := IndexOf(contentType, "boundary=", 0);
    if pos.None? {
      return "";
    }
    b := contentType[pos.value + 9..];
    if |b| >= 2 && b[0] == '"' {
      var end := IndexOf(b, "\"", 1);
      b := if end.Some? then b[1..end.value] else b[1..];
    }
    ghost var goal := StripTrailing(b);
    while b != "" && Trailing(b[|b| - 1])
      invariant StripTrailing(b) == goal
      decreases |b|
    {
      b := b[..|b| - 1];
    }
  }

  /** `boundary=` does not occur before the end of `prefix`. */
  predicate NamesNoBoundary(prefix: string) {
    IndexOf(prefix + "boundary=", "boundary=", 0) == Some(|prefix|)
  }

  /** A bare boundary is read back exactly if it neither looks quoted nor ends like a separator. */
  lemma BareBoundary(prefix: string, b: string)
    requires NamesNoBoundary(prefix)
    ensures Boundary(prefix + "boundary=" + b) == b <==>
      !(|b| >= 2 && b[0] == '"') && (b != "" ==> !Trailing(b[|b| - 1]))
  {
    BoundaryFound(prefix, b);
  }

  /** A quoted one, whatever follows, if it has no quote inside and does not end like a separator. */
  lemma QuotedBoundary(prefix: string, b: string, rest: string)
    requires NamesNoBoundary(prefix) && Without(b, '"')
    ensures Boundary(prefix + "boundary=" + "\"" + b + "\"" + rest) == b <==> (b != "" ==> !Trailing(b[|b| - 1]))
  {
    var value := "\"" + b + "\"" + rest;
    assert prefix + "boundary=" + value == prefix + "boundary=" + "\"" + b + "\"" + rest;
    BoundaryFound(prefix, value);
    QuotesGo(b, rest, value);
  }

  lemma QuotesGo(b: string, rest: string, value: string)
    requires Without(b, '"') && value == "\"" + b + "\"" + rest
    ensures Unquoted(value) == b
  {
    assert value[1..1 + |b|] == b && value[0] == '"';
    QuotedValue(value, 1, b);
  }

  lemma BoundaryFound(prefix: string, value: string)
    requires NamesNoBoundary(prefix)
    ensures Boundary(prefix + "boundary=" + value) == StripTrailing(Unquoted(value))
  {
    var ct, needle := prefix + "boundary=" + value, "boundary=";
    KeyIsFirst(prefix, needle, value);
    assert ct[|prefix| + 9..] == value;
  }

  lemma KeyIsFirst(prefix: string, needle: string, value: string)
    requires IndexOf(prefix + needle, needle, 0) == Some(|prefix|)
    ensures IndexOf(prefix + needle + value, needle, 0) == Some(|prefix|)
  {
    var head, ct := prefix + needle, prefix + needle + value;
    AtAfter(prefix, needle, value);
    IndexOfIsFirst(head, needle, 0);
    forall k | 0 <= k < |prefix| ensures !At(ct, needle, k) {
      assert !At(head, needle, k) && ct[k..k + |needle|] == head[k..k + |needle|];
    }
    FirstIs(ct, needle, 0, |prefix|);
  }
}
