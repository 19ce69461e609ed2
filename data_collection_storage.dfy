/** `datacollection/DataCollectionStorage`: the names of session files, which files the listing
    decodes, and the CSV export of every saved session. The storage directory is a value, and
    the JSON encoder and decoder are parameters. The CSV reader at the end follows section 2 of
    RFC 4180 (fields separated by commas, a quoted field doubling each quote it contains) and is
    what the export is checked against. */
module DataCollectionStorage {
  import opened Wrappers
  import opened Seqs
  import opened Chars
  import opened CollectedWordData

  const FILE_PREFIX: string := "session_"
  const FILE_EXTENSION: string := ".json"
  const CSV_HEADER: string := "SessionID,Timestamp,FullText,StrangeWords\n"

  // ---------------------------------------------------------------------------------------------
  // Session files

  /** The file a session is saved to. */
  function SessionFileName(id: string): (r: string)
    ensures StartsWith(r, FILE_PREFIX) && EndsWith(r, FILE_EXTENSION)
    ensures |r| == |id| + 13 && r[8..|r| - 5] == id
  {
    FILE_PREFIX + id + FILE_EXTENSION
  }

  /** The name test of the listing filter. */
  predicate IsSessionFileName(name: string) {
    StartsWith(name, FILE_PREFIX) && EndsWith(name, FILE_EXTENSION)
  }

  /** The listing accepts exactly the names `SessionFileName` produces: the prefix and the
      extension cannot overlap, so an accepted name has an identifier between them. */
  lemma SessionFileNameIff(name: string)
    ensures IsSessionFileName(name) <==> |name| >= 13 && name == SessionFileName(name[8..|name| - 5])
  {
    if IsSessionFileName(name) {
      assert name[|name| - 5] == name[|name| - 5..][0] == '.';
      forall k | 0 <= k < 8
        ensures name[k] != '.'
      {
        assert name[k] == name[..8][k] == FILE_PREFIX[k];
      }
      assert name == name[..8] + name[8..|name| - 5] + name[|name| - 5..];
    }
  }

  /** A directory entry: its name, whether it is a regular file, and its text. */
  datatype FileEntry = FileEntry(name: string, isFile: bool, contents: string)

  /** The storage directory: absent, present but not listable (`listFiles` gives null), or
      listed. */
  datatype Directory = Missing | Unlistable | Listing(files: seq<FileEntry>)

  /** The listing filter. */
  predicate IsListed(f: FileEntry) {
    f.isFile && IsSessionFileName(f.name)
  }

  /** `mapNotNull` of the decoder over a listing; a file that does not decode is skipped. */
  function Decoded(files: seq<FileEntry>, decode: string -> Option<CollectionSession>): (r: seq<CollectionSession>)
    ensures |r| <= |files|
    decreases |files|
  {
    if files == [] then [] else OptionToSeq(decode(files[0].contents)) + Decoded(files[1..], decode)
  }

  lemma {:induction false} DecodedMembership(files: seq<FileEntry>, decode: string -> Option<CollectionSession>, s: CollectionSession)
    ensures s in Decoded(files, decode) <==> exists i :: 0 <= i < |files| && decode(files[i].contents) == Some(s)
    decreases |files|
  {
    if files != [] {
      DecodedMembership(files[1..], decode, s);
      if exists i :: 0 <= i < |files| && decode(files[i].contents) == Some(s) {
        var i :| 0 <= i < |files| && decode(files[i].contents) == Some(s);
        if i > 0 {
          assert files[1..][i - 1] == files[i];
        }
      }
      if exists i :: 0 <= i < |files[1..]| && decode(files[1..][i].contents) == Some(s) {
        var i :| 0 <= i < |files[1..]| && decode(files[1..][i].contents) == Some(s);
        assert files[i + 1] == files[1..][i];
      }
    }
  }

  /** `getSavedSessions`: the decoded sessions of the listed session files, and nothing when the
      directory is missing or cannot be listed. */
  function SavedSessions(dir: Directory, decode: string -> Option<CollectionSession>): (r: seq<CollectionSession>)
    ensures !dir.Listing? ==> r == []
  {
    match dir
    case Missing => []
    case Unlistable => []
    case Listing(files) => Decoded(Filter(files, IsListed), decode)
  }

  /** A session is returned exactly when some listed session file decodes to it. */
  lemma SavedSessionsMembership(dir: Directory, decode: string -> Option<CollectionSession>, s: CollectionSession)
    ensures s in SavedSessions(dir, decode) <==>
      dir.Listing? && exists i :: 0 <= i < |dir.files| && IsListed(dir.files[i]) && decode(dir.files[i].contents) == Some(s)
  {
    if dir.Listing? {
      var files := dir.files;
      var listed := Filter(files, IsListed);
      DecodedMembership(listed, decode, s);
      if s in SavedSessions(dir, decode) {
        var j :| 0 <= j < |listed| && decode(listed[j].contents) == Some(s);
        FilterMembership(files, IsListed, listed[j]);
        var i :| 0 <= i < |files| && files[i] == listed[j];
        assert IsListed(files[i]) && decode(files[i].contents) == Some(s);
      }
      if exists i :: 0 <= i < |files| && IsListed(files[i]) && decode(files[i].contents) == Some(s) {
        var i :| 0 <= i < |files| && IsListed(files[i]) && decode(files[i].contents) == Some(s);
        FilterMembership(files, IsListed, files[i]);
        var j :| 0 <= j < |listed| && listed[j] == files[i];
        assert decode(listed[j].contents) == Some(s);
      }
    }
  }

  /** Why a write throws. */
  datatype StorageError = WriteFailed

  /** The entry `saveCollectionSession` writes for a session. */
  function SessionEntry(session: CollectionSession, encode: CollectionSession -> string): FileEntry {
    FileEntry(SessionFileName(session.id), true, encode(session))
  }

  /** `saveCollectionSession`: creates the directory when missing and writes the encoded session
      to its file, replacing a file of the same name. A path that cannot be listed is not a
      usable directory, so `writeText` throws there. */
  function SaveSession(dir: Directory, session: CollectionSession, encode: CollectionSession -> string): (r: Result<Directory, StorageError>)
    ensures r.Failure? <==> dir.Unlistable?
    ensures r.Success? ==> r.value.Listing?
    ensures r.Success? ==> forall f :: f in r.value.files <==>
      (f == SessionEntry(session, encode) ||
       (dir.Listing? && f in dir.files && f.name != SessionFileName(session.id)))
  {
    var entry := SessionEntry(session, encode);
    match dir
    case Missing => Success(Listing([entry]))
    case Unlistable => Failure(WriteFailed)
    case Listing(files) =>
      var other := (f: FileEntry) => f.name != entry.name;
      FilterMembershipAll(files, other);
      Success(Listing(Filter(files, other) + [entry]))
  }

  /** A saved session is listed again, as long as its encoding decodes back to it, and the only
      session file of its name is the new one. */
  lemma SaveThenList(dir: Directory, session: CollectionSession, encode: CollectionSession -> string,
                     decode: string -> Option<CollectionSession>)
    requires !dir.Unlistable?
    requires decode(encode(session)) == Some(session)
    ensures SaveSession(dir, session, encode).Success?
    ensures session in SavedSessions(SaveSession(dir, session, encode).value, decode)
    ensures forall f :: f in SaveSession(dir, session, encode).value.files && f.name == SessionFileName(session.id) ==>
      f == SessionEntry(session, encode)
  {
    var saved := SaveSession(dir, session, encode).value;
    var entry := SessionEntry(session, encode);
    assert entry in saved.files;
    var i :| 0 <= i < |saved.files| && saved.files[i] == entry;
    assert IsListed(saved.files[i]);
    SavedSessionsMembership(saved, decode, session);
  }

  // ---------------------------------------------------------------------------------------------
  // The CSV export

  /** Each `"` written twice, the escape of section 2, rule 7 of RFC 4180. */
  function DoubleQuotes(s: string): (r: string)
    ensures |r| >= |s|
    decreases |s|
  {
    if s == [] then "" else (if s[0] == '"' then "\"\"" else [s[0]]) + DoubleQuotes(s[1..])
  }

  /** A field wrapped in quotes with its quotes doubled. */
  function Quote(s: string): string {
    "\"" + DoubleQuotes(s) + "\""
  }

  function DigitChar(d: nat): (c: char)
    requires d < 10
    ensures IsDigit(c) && c as int - '0' as int == d
  {
    ['0', '1', '2', '3', '4', '5', '6', '7', '8', '9'][d]
  }

  /** The decimal digits of `n`, most significant first. */
  function Digits(n: nat): (r: string)
    ensures |r| >= 1 && forall i :: 0 <= i < |r| ==> IsDigit(r[i])
  {
    if n < 10 then [DigitChar(n)] else Digits(n / 10) + [DigitChar(n % 10)]
  }

  /** `Long.toString`: an optional minus sign and the digits. */
  function DecimalString(n: int): (r: string)
    ensures r != [] && forall i :: 0 <= i < |r| ==> r[i] == '-' || IsDigit(r[i])
  {
    if n < 0 then "-" + Digits(-n) else Digits(n)
  }

  /** The value of a string of digits. */
  function DigitsValue(s: string): nat
    requires forall i :: 0 <= i < |s| ==> IsDigit(s[i])
    decreases |s|
  {
    if s == [] then 0 else DigitsValue(s[..|s| - 1]) * 10 + DigitValue(s[|s| - 1])
  }

  function DigitValue(c: char): nat
    requires IsDigit(c)
  {
    c as int - '0' as int
  }

  /** Reading a timestamp back. */
  function DecimalValue(s: string): int
    requires s != [] && forall i :: 0 <= i < |s| ==> s[i] == '-' || IsDigit(s[i])
    requires s[0] == '-' ==> forall i :: 1 <= i < |s| ==> IsDigit(s[i])
    requires s[0] != '-' ==> forall i :: 0 <= i < |s| ==> IsDigit(s[i])
  {
    if s[0] == '-' then -(DigitsValue(s[1..]) as int) else DigitsValue(s)
  }

  lemma {:induction false} DigitsRoundTrip(n: nat)
    ensures DigitsValue(Digits(n)) == n
  {
    if n >= 10 {
      DigitsRoundTrip(n / 10);
      var d := Digits(n);
      assert d[..|d| - 1] == Digits(n / 10);
    }
  }

  /** The timestamp column reads back as the session's timestamp. */
  lemma DecimalRoundTrip(n: int)
    ensures DecimalValue(DecimalString(n)) == n
  {
    DigitsRoundTrip(if n < 0 then -n else n);
    if n < 0 {
      assert DecimalString(n)[1..] == Digits(-n);
    }
  }

  /** The strange-words column: the settled form of each word marked strange, in order, joined
      with `;`. */
  function StrangeField(session: CollectionSession): string {
    Join(Map(Filter(session.words, IsMarked), SettledWord), ";")
  }

  /** One session's row, terminated by a newline. */
  function Row(session: CollectionSession): string {
    session.id + ("," + (DecimalString(session.timestamp) + ("," + (Quote(session.fullText) + ("," +
      (Quote(StrangeField(session)) + "\n"))))))
  }

  /** The rows of the sessions, in the order they are listed. */
  function Rows(sessions: seq<CollectionSession>): string
    decreases |sessions|
  {
    if sessions == [] then "" else Row(sessions[0]) + Rows(sessions[1..])
  }

  /** The exported file's text. */
  function CsvText(sessions: seq<CollectionSession>): (r: string)
    ensures StartsWith(r, CSV_HEADER)
  {
    CSV_HEADER + Rows(sessions)
  }

  lemma {:induction false} RowsSnoc(sessions: seq<CollectionSession>, s: CollectionSession)
    ensures Rows(sessions + [s]) == Rows(sessions) + Row(s)
    decreases |sessions|
  {
    if sessions == [] {
      assert Rows([s]) == Row(s) + Rows([]);
    } else {
      assert (sessions + [s])[1..] == sessions[1..] + [s];
      RowsSnoc(sessions[1..], s);
    }
  }

  lemma Associative(a: string, b: string, c: string)
    ensures a + (b + c) == a + b + c
  {
  }

  lemma AppendRow(writer: string, sessions: seq<CollectionSession>, i: nat)
    requires i < |sessions|
    requires writer == CSV_HEADER + Rows(sessions[..i])
    ensures writer + Row(sessions[i]) == CSV_HEADER + Rows(sessions[..i + 1])
  {
    var done := sessions[..i];
    var next := sessions[i];
    assert sessions[..i + 1] == done + [next];
    RowsSnoc(done, next);
    Associative(CSV_HEADER, Rows(done), Row(next));
  }

  /** `exportAllDataToCsv`: nothing when there are no saved sessions or the write fails;
      otherwise the header followed by one row per saved session, written in listing order. The
      result stands for the exported file's text rather than its URI. */
  method ExportAllDataToCsv(dir: Directory, decode: string -> Option<CollectionSession>, writeFailed: bool)
    returns (csv: Option<string>)
    ensures SavedSessions(dir, decode) == [] || writeFailed ==> csv.None?
    ensures SavedSessions(dir, decode) != [] && !writeFailed ==> csv == Some(CsvText(SavedSessions(dir, decode)))
  {
    var sessions := SavedSessions(dir, decode);
    if sessions == [] {
      return None;
    }
    var text := WriteCsv(sessions);
    if writeFailed {
      return None;
    }
    return Some(text);
  }

  /** The `FileWriter` block: the header, then one row per session, appended in order. */
  method WriteCsv(sessions: seq<CollectionSession>) returns (writer: string)
    ensures writer == CsvText(sessions)
  {
    writer := CSV_HEADER;
    assert sessions[..0] == [];
    for i := 0 to |sessions|
      invariant writer == CSV_HEADER + Rows(sessions[..i])
    {
      AppendRow(writer, sessions, i);
      writer := writer + Row(sessions[i]);
    }
    assert sessions[..|sessions|] == sessions;
  }

  // ---------------------------------------------------------------------------------------------
  // Reading the CSV back (RFC 4180, section 2)

  /** Characters that end or quote a field. */
  predicate IsSpecial(c: char) {
    c == ',' || c == '"' || c == '\n'
  }

  predicate Plain(s: string) {
    forall i :: 0 <= i < |s| ==> !IsSpecial(s[i])
  }

  /** An unquoted field: everything up to the next comma or newline; a quote inside it is an
      error. */
  function Unquoted(s: string): (r: Option<(string, string)>)
    ensures r.Some? ==> |r.value.1| <= |s|
    decreases |s|
  {
    if s == [] || s[0] == ',' || s[0] == '\n' then Some(("", s))
    else if s[0] == '"' then None
    else match Unquoted(s[1..])
      case None => None
      case Some((f, rest)) => Some(([s[0]] + f, rest))
  }

  /** The body of a quoted field, after its opening quote: a doubled quote stands for one, a
      single quote closes the field, and the input ending first is an error. */
  function QuotedBody(s: string): (r: Option<(string, string)>)
    ensures r.Some? ==> |r.value.1| < |s|
    decreases |s|
  {
    if s == [] then None
    else if s[0] == '"' then
      if |s| > 1 && s[1] == '"' then
        match QuotedBody(s[2..])
        case None => None
        case Some((f, rest)) => Some(("\"" + f, rest))
      else Some(("", s[1..]))
    else match QuotedBody(s[1..])
      case None => None
      case Some((f, rest)) => Some(([s[0]] + f, rest))
  }

  function Field(s: string): (r: Option<(string, string)>)
    ensures r.Some? ==> |r.value.1| <= |s|
  {
    if s != [] && s[0] == '"' then QuotedBody(s[1..]) else Unquoted(s)
  }

  /** One record: fields separated by commas and ended by a newline. */
  function Record(s: string): (r: Option<(seq<string>, string)>)
    ensures r.Some? ==> |r.value.1| < |s|
    decreases |s|
  {
    match Field(s)
    case None => None
    case Some((f, rest)) =>
      if rest == [] then None
      else if rest[0] == '\n' then Some(([f], rest[1..]))
      else if rest[0] == ',' then
        match Record(rest[1..])
        case None => None
        case Some((fs, after)) => Some(([f] + fs, after))
      else None
  }

  /** A whole file: records until the input ends. */
  function Records(s: string): Option<seq<seq<string>>>
    decreases |s|
  {
    if s == [] then Some([])
    else match Record(s)
      case None => None
      case Some((fs, rest)) =>
        match Records(rest)
        case None => None
        case Some(rs) => Some([fs] + rs)
  }

  lemma {:induction false} UnquotedPlain(a: string, rest: string)
    requires Plain(a)
    requires rest == [] || rest[0] == ',' || rest[0] == '\n'
    ensures Unquoted(a + rest) == Some((a, rest))
    decreases |a|
  {
    if a == [] {
      assert a + rest == rest;
    } else {
      assert (a + rest)[0] == a[0];
      assert (a + rest)[1..] == a[1..] + rest;
      UnquotedPlain(a[1..], rest);
      assert [a[0]] + a[1..] == a;
    }
  }

  /** A quoted field reads back as the text it quotes. */
  lemma {:induction false} QuotedRoundTrip(x: string, rest: string)
    requires rest == [] || rest[0] != '"'
    ensures QuotedBody(DoubleQuotes(x) + "\"" + rest) == Some((x, rest))
    decreases |x|
  {
    if x == [] {
      QuotedClose(rest);
    } else {
      QuotedRoundTrip(x[1..], rest);
      QuotedStep(x, rest);
    }
  }

  /** Reading one more encoded character in front of a field that reads back. */
  lemma QuotedStep(x: string, rest: string)
    requires x != []
    requires QuotedBody(DoubleQuotes(x[1..]) + "\"" + rest) == Some((x[1..], rest))
    ensures QuotedBody(DoubleQuotes(x) + "\"" + rest) == Some((x, rest))
  {
    var tail := DoubleQuotes(x[1..]) + "\"" + rest;
    DoubleQuotesCons(x, rest);
    if x[0] == '"' {
      QuotedStepQuote(tail, x[1..], rest);
    } else {
      QuotedStepPlain(x[0], tail, x[1..], rest);
    }
    assert [x[0]] + x[1..] == x;
  }

  /** The first character's encoding, then the rest's. */
  lemma DoubleQuotesCons(x: string, rest: string)
    requires x != []
    ensures DoubleQuotes(x) + "\"" + rest ==
      (if x[0] == '"' then "\"\"" else [x[0]]) + (DoubleQuotes(x[1..]) + "\"" + rest)
  {
  }

  /** A single quote closes the field. */
  lemma QuotedClose(rest: string)
    requires rest == [] || rest[0] != '"'
    ensures QuotedBody(DoubleQuotes("") + "\"" + rest) == Some(("", rest))
  {
    assert DoubleQuotes("") + "\"" + rest == "\"" + rest;
    assert ("\"" + rest)[1..] == rest;
  }

  /** A doubled quote reads as one quote. */
  lemma QuotedStepQuote(tail: string, y: string, rest: string)
    requires QuotedBody(tail) == Some((y, rest))
    ensures QuotedBody("\"\"" + tail) == Some(("\"" + y, rest))
  {
    assert ("\"\"" + tail)[2..] == tail;
  }

  /** Any other character reads as itself. */
  lemma QuotedStepPlain(c: char, tail: string, y: string, rest: string)
    requires c != '"' && QuotedBody(tail) == Some((y, rest))
    ensures QuotedBody([c] + tail) == Some(([c] + y, rest))
  {
    assert ([c] + tail)[1..] == tail;
  }

  lemma QuotedField(x: string, rest: string)
    requires rest == [] || rest[0] != '"'
    ensures Field(Quote(x) + rest) == Some((x, rest))
  {
    QuotedRoundTrip(x, rest);
    assert (Quote(x) + rest)[1..] == DoubleQuotes(x) + "\"" + rest;
  }

  lemma PlainField(a: string, rest: string)
    requires Plain(a)
    requires rest == [] || rest[0] == ',' || rest[0] == '\n'
    ensures Field(a + rest) == Some((a, rest))
  {
    UnquotedPlain(a, rest);
  }

  /** A field followed by a comma, then the rest of the record. */
  lemma RecordCons(raw: string, f: string, tail: string, fs: seq<string>, after: string)
    requires Field(raw + ("," + tail)) == Some((f, "," + tail))
    requires Record(tail) == Some((fs, after))
    ensures Record(raw + ("," + tail)) == Some(([f] + fs, after))
  {
    assert ("," + tail)[1..] == tail;
  }

  /** The last field of a record, followed by its newline. */
  lemma RecordLast(raw: string, f: string, rest: string)
    requires Field(raw + ("\n" + rest)) == Some((f, "\n" + rest))
    ensures Record(raw + ("\n" + rest)) == Some(([f], rest))
  {
    assert ("\n" + rest)[1..] == rest;
  }

  /** A session's row reads back as its four columns, provided its identifier holds no comma,
      quote or newline: the timestamp never does, and the two text columns are quoted. */
  lemma RowParses(session: CollectionSession, rest: string)
    requires Plain(session.id)
    ensures Record(Row(session) + rest) ==
      Some(([session.id, DecimalString(session.timestamp), session.fullText, StrangeField(session)], rest))
  {
    var ts := DecimalString(session.timestamp);
    RowShape(session.id, ts, Quote(session.fullText), Quote(StrangeField(session)), rest);
    DecimalPlain(session.timestamp);
    TwoPlainTwoQuoted(session.id, ts, session.fullText, StrangeField(session), rest);
  }

  /** Moving the brackets of a row followed by more text to the right. */
  lemma RowShape(a: string, b: string, c: string, d: string, rest: string)
    ensures (a + ("," + (b + ("," + (c + ("," + (d + "\n"))))))) + rest ==
      a + ("," + (b + ("," + (c + ("," + (d + ("\n" + rest)))))))
  {
  }

  /** A timestamp holds no comma, quote or newline. */
  lemma DecimalPlain(n: int)
    ensures Plain(DecimalString(n))
  {
  }

  /** Two plain fields and two quoted ones, comma-separated and ended by a newline, read back as
      the four texts. */
  lemma TwoPlainTwoQuoted(a: string, b: string, c: string, d: string, rest: string)
    requires Plain(a) && Plain(b)
    ensures Record(a + ("," + (b + ("," + (Quote(c) + ("," + (Quote(d) + ("\n" + rest)))))))) ==
      Some(([a, b, c, d], rest))
  {
    var t3 := Quote(d) + ("\n" + rest);
    var t2 := Quote(c) + ("," + t3);
    var t1 := b + ("," + t2);
    QuotedField(d, "\n" + rest);
    RecordLast(Quote(d), d, rest);
    QuotedField(c, "," + t3);
    RecordCons(Quote(c), c, t3, [d], rest);
    PlainField(b, "," + t2);
    assert [c] + [d] == [c, d];
    RecordCons(b, b, t2, [c, d], rest);
    PlainField(a, "," + t1);
    assert [b] + [c, d] == [b, c, d];
    RecordCons(a, a, t1, [b, c, d], rest);
    assert [a] + [b, c, d] == [a, b, c, d];
  }

  /** The four columns of a session's row. */
  function RowFields(session: CollectionSession): seq<string> {
    [session.id, DecimalString(session.timestamp), session.fullText, StrangeField(session)]
  }

  const HEADER_FIELDS: seq<string> := ["SessionID", "Timestamp", "FullText", "StrangeWords"]

  /** Four plain fields, comma-separated and ended by a newline, read back as themselves. */
  lemma FourPlainFields(a: string, b: string, c: string, d: string, rest: string)
    requires Plain(a) && Plain(b) && Plain(c) && Plain(d)
    ensures Record(a + ("," + (b + ("," + (c + ("," + (d + ("\n" + rest)))))))) == Some(([a, b, c, d], rest))
  {
    var t3 := d + ("\n" + rest);
    var t2 := c + ("," + t3);
    var t1 := b + ("," + t2);
    PlainField(d, "\n" + rest);
    RecordLast(d, d, rest);
    PlainField(c, "," + t3);
    RecordCons(c, c, t3, [d], rest);
    PlainField(b, "," + t2);
    assert [c] + [d] == [c, d];
    RecordCons(b, b, t2, [c, d], rest);
    PlainField(a, "," + t1);
    assert [b] + [c, d] == [b, c, d];
    RecordCons(a, a, t1, [b, c, d], rest);
    assert [a] + [b, c, d] == [a, b, c, d];
  }

  /** Moving the brackets of a four-field line to the right. */
  lemma FourFieldsShape(a: string, b: string, c: string, d: string, rest: string)
    ensures a + "," + b + "," + c + "," + d + "\n" + rest == a + ("," + (b + ("," + (c + ("," + (d + ("\n" + rest)))))))
  {
  }

  /** The column names hold no comma, quote or newline. */
  lemma HeaderNamesPlain()
    ensures Plain("SessionID") && Plain("Timestamp") && Plain("FullText") && Plain("StrangeWords")
  {
  }

  /** The header line is the four column names, comma-separated, then a newline. */
  lemma HeaderLine()
    ensures CSV_HEADER == "SessionID" + "," + "Timestamp" + "," + "FullText" + "," + "StrangeWords" + "\n"
  {
  }

  lemma HeaderParses(rest: string)
    ensures Record(CSV_HEADER + rest) == Some((HEADER_FIELDS, rest))
  {
    var a, b, c, d := "SessionID", "Timestamp", "FullText", "StrangeWords";
    HeaderLine();
    FourFieldsShape(a, b, c, d, rest);
    HeaderNamesPlain();
    FourPlainFields(a, b, c, d, rest);
  }

  lemma {:induction false} RowsParse(sessions: seq<CollectionSession>)
    requires forall i :: 0 <= i < |sessions| ==> Plain(sessions[i].id)
    ensures Records(Rows(sessions)) == Some(Map(sessions, RowFields))
    decreases |sessions|
  {
    if sessions != [] {
      RowParses(sessions[0], Rows(sessions[1..]));
      RowsParse(sessions[1..]);
      assert Map(sessions, RowFields) == [RowFields(sessions[0])] + Map(sessions[1..], RowFields);
    }
  }

  /** The exported file reads back, under RFC 4180, as the header and then one record per
      session holding its identifier, timestamp, corrected text and strange words. */
  lemma CsvReadsBack(sessions: seq<CollectionSession>)
    requires forall i :: 0 <= i < |sessions| ==> Plain(sessions[i].id)
    ensures Records(CsvText(sessions)) == Some([HEADER_FIELDS] + Map(sessions, RowFields))
  {
    HeaderParses(Rows(sessions));
    RowsParse(sessions);
    RecordsCons(CsvText(sessions), HEADER_FIELDS, Rows(sessions), Map(sessions, RowFields));
  }

  lemma RecordsCons(s: string, fs: seq<string>, rest: string, rs: seq<seq<string>>)
    requires Record(s) == Some((fs, rest))
    requires Records(rest) == Some(rs)
    ensures Records(s) == Some([fs] + rs)
  {
  }
}
