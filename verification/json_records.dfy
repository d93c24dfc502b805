/** The text the timers keep in browser storage: `JSON.stringify` of an array of
    flat records whose fields are integers or strings, and the `JSON.parse` that
    reads it back. The writer escapes strings as `JSON.stringify` does. Like `JSON.parse`,
    the reader refuses a leading zero in a number and a raw control character in a
    string. It reads only the form the writer produces: no whitespace, and only the
    escapes the writer uses. */
module JsonRecords {
  import opened Wrappers
  import opened Decimal

  datatype Scalar = Num(n: int) | Text(s: string)

  datatype Field = Field(key: string, value: Scalar)

  type Record = seq<Field>

  /** A value read from the front of a text, and the text after it. */
  datatype Parsed<+T> = Parsed(value: T, rest: string)

  // ---------------------------------------------------------------------------
  // Writing

  function EncodeInt(n: int): string {
    if n < 0 then "-" + Digits(-n) else Digits(n)
  }

  /** The characters `JSON.stringify` writes behind a backslash: the quote, the
      backslash, and the control characters below U+0020. */
  predicate NeedsEscape(c: char) {
    c == '"' || c == '\\' || c < ' '
  }

  /** A lower-case hexadecimal digit. */
  function HexDigit(d: nat): (c: char)
    requires d < 16
    ensures HexValue(c) == Some(d)
  {
    if d < 10 then DigitChar(d) else (d - 10 + 'a' as int) as char
  }

  /** How `JSON.stringify` writes one character of a string: a two-character
      escape for the quote, the backslash, backspace, form feed, line feed,
      carriage return and tab; `\u00XX` in lower-case hexadecimal for the other
      control characters; the character itself otherwise. */
  function EscapeChar(c: char): string {
    if c == '"' || c == '\\' then ['\\', c]
    else if c == 8 as char then "\\b"
    else if c == 12 as char then "\\f"
    else if c == '\n' then "\\n"
    else if c == '\r' then "\\r"
    else if c == '\t' then "\\t"
    else if c < ' ' then "\\u00" + [HexDigit(c as int / 16), HexDigit(c as int % 16)]
    else [c]
  }

  function Escape(s: string): string {
    if s == [] then [] else EscapeChar(s[0]) + Escape(s[1..])
  }

  function EncodeText(s: string): string {
    "\"" + Escape(s) + "\""
  }

  function EncodeScalar(v: Scalar): string {
    match v
    case Num(n) => EncodeInt(n)
    case Text(s) => EncodeText(s)
  }

  function EncodeField(f: Field): string {
    EncodeText(f.key) + ":" + EncodeScalar(f.value)
  }

  /** The fields of a record, separated by commas. */
  function EncodeFields(fs: seq<Field>): string {
    if fs == [] then ""
    else if |fs| == 1 then EncodeField(fs[0])
    else EncodeField(fs[0]) + "," + EncodeFields(fs[1..])
  }

  function EncodeRecord(r: Record): string {
    "{" + EncodeFields(r) + "}"
  }

  /** The records of an array, separated by commas. */
  function EncodeRecords(rs: seq<Record>): string {
    if rs == [] then ""
    else if |rs| == 1 then EncodeRecord(rs[0])
    else EncodeRecord(rs[0]) + "," + EncodeRecords(rs[1..])
  }

  function EncodeList(rs: seq<Record>): string {
    "[" + EncodeRecords(rs) + "]"
  }

  // ---------------------------------------------------------------------------
  // Reading. Every reader that succeeds consumes at least one character.

  function Expect(c: char, s: string): (r: Option<string>)
    ensures r.Some? ==> |r.value| < |s|
  {
    if |s| > 0 && s[0] == c then Some(s[1..]) else None
  }

  /** One or more digits, with no leading zero: as in JSON, a number that starts
      with '0' is the number 0 alone. */
  function ParseDigits(s: string): (r: Option<Parsed<nat>>)
    ensures r.Some? ==> |r.value.rest| < |s|
    ensures r.Some? && s[0] == '0' ==> r.value == Parsed(0, s[1..])
  {
    var k := DigitRun(s);
    if k == 0 || (k > 1 && s[0] == '0') then None
    else
      var d := s[..k];
      assert k == 1 ==> d[..0] == [] && Value(d) == DigitValue(s[0]);
      Some(Parsed(Value(d), s[k..]))
  }

  /** An optional '-' and one or more digits. */
  function ParseInt(s: string): (r: Option<Parsed<int>>)
    ensures r.Some? ==> |r.value.rest| < |s|
  {
    if |s| > 0 && s[0] == '-' then
      match ParseDigits(s[1..])
      case None => None
      case Some(p) => Some(Parsed(-(p.value as int), p.rest))
    else
      match ParseDigits(s)
      case None => None
      case Some(p) => Some(Parsed(p.value as int, p.rest))
  }

  /** The value of a hexadecimal digit of either case. */
  function HexValue(c: char): (r: Option<nat>)
    ensures r.Some? ==> r.value < 16
  {
    if '0' <= c <= '9' then Some(c as int - '0' as int)
    else if 'a' <= c <= 'f' then Some(c as int - 'a' as int + 10)
    else if 'A' <= c <= 'F' then Some(c as int - 'A' as int + 10)
    else None
  }

  /** The character an escape stands for, read after its backslash. The escapes
      accepted are the ones `JSON.stringify` writes. */
  function Unescape(s: string): (r: Option<Parsed<char>>)
    ensures r.Some? ==> |r.value.rest| < |s|
  {
    if s == [] then None
    else if s[0] == '"' || s[0] == '\\' then Some(Parsed(s[0], s[1..]))
    else if s[0] == 'b' then Some(Parsed(8 as char, s[1..]))
    else if s[0] == 'f' then Some(Parsed(12 as char, s[1..]))
    else if s[0] == 'n' then Some(Parsed('\n', s[1..]))
    else if s[0] == 'r' then Some(Parsed('\r', s[1..]))
    else if s[0] == 't' then Some(Parsed('\t', s[1..]))
    else if |s| >= 5 && s[0] == 'u' && s[1] == '0' && s[2] == '0' && HexValue(s[3]).Some? && HexValue(s[4]).Some? then
      Some(Parsed((HexValue(s[3]).value * 16 + HexValue(s[4]).value) as char, s[5..]))
    else None
  }

  /** The characters of a string literal up to and including its closing quote.
      As in JSON, a control character may appear only escaped. */
  function ParseTextBody(s: string): (r: Option<Parsed<string>>)
    ensures r.Some? ==> |r.value.rest| < |s|
    decreases |s|
  {
    if s == [] then None
    else if s[0] == '"' then Some(Parsed([], s[1..]))
    else if s[0] == '\\' then
      match Unescape(s[1..])
      case None => None
      case Some(e) =>
        match ParseTextBody(e.rest)
        case None => None
        case Some(p) => Some(Parsed([e.value] + p.value, p.rest))
    else if s[0] < ' ' then None
    else
      match ParseTextBody(s[1..])
      case None => None
      case Some(p) => Some(Parsed([s[0]] + p.value, p.rest))
  }

  function ParseText(s: string): (r: Option<Parsed<string>>)
    ensures r.Some? ==> |r.value.rest| < |s|
  {
    match Expect('"', s)
    case None => None
    case Some(body) => ParseTextBody(body)
  }

  function ParseScalar(s: string): (r: Option<Parsed<Scalar>>)
    ensures r.Some? ==> |r.value.rest| < |s|
  {
    if |s| > 0 && s[0] == '"' then
      match ParseText(s)
      case None => None
      case Some(p) => Some(Parsed(Text(p.value), p.rest))
    else
      match ParseInt(s)
      case None => None
      case Some(p) => Some(Parsed(Num(p.value), p.rest))
  }

  function ParseField(s: string): (r: Option<Parsed<Field>>)
    ensures r.Some? ==> |r.value.rest| < |s|
  {
    match ParseText(s)
    case None => None
    case Some(k) =>
      match Expect(':', k.rest)
      case None => None
      case Some(afterColon) =>
        match ParseScalar(afterColon)
        case None => None
        case Some(v) => Some(Parsed(Field(k.value, v.value), v.rest))
  }

  /** One or more fields separated by commas. */
  function ParseFields(s: string): (r: Option<Parsed<seq<Field>>>)
    ensures r.Some? ==> |r.value.rest| < |s| && |r.value.value| >= 1
    decreases |s|
  {
    match ParseField(s)
    case None => None
    case Some(f) =>
      match Expect(',', f.rest)
      case None => Some(Parsed([f.value], f.rest))
      case Some(next) =>
        match ParseFields(next)
        case None => None
        case Some(fs) => Some(Parsed([f.value] + fs.value, fs.rest))
  }

  function ParseRecord(s: string): (r: Option<Parsed<Record>>)
    ensures r.Some? ==> |r.value.rest| < |s|
  {
    match Expect('{', s)
    case None => None
    case Some(body) =>
      match Expect('}', body)
      case Some(rest) => Some(Parsed([], rest))
      case None =>
        match ParseFields(body)
        case None => None
        case Some(fs) =>
          match Expect('}', fs.rest)
          case None => None
          case Some(rest) => Some(Parsed(fs.value, rest))
  }

  /** One or more records separated by commas. */
  function ParseRecords(s: string): (r: Option<Parsed<seq<Record>>>)
    ensures r.Some? ==> |r.value.rest| < |s| && |r.value.value| >= 1
    decreases |s|
  {
    match ParseRecord(s)
    case None => None
    case Some(x) =>
      match Expect(',', x.rest)
      case None => Some(Parsed([x.value], x.rest))
      case Some(next) =>
        match ParseRecords(next)
        case None => None
        case Some(xs) => Some(Parsed([x.value] + xs.value, xs.rest))
  }

  /** The whole stored text as an array of records; `None` for text that is not one
      (the case in which `JSON.parse` throws, or yields something other than an
      array of records). */
  function DecodeList(s: string): Option<seq<Record>>
  {
    match Expect('[', s)
    case None => None
    case Some(body) =>
      match Expect(']', body)
      case Some(rest) => if rest == [] then Some([]) else None
      case None =>
        match ParseRecords(body)
        case None => None
        case Some(rs) =>
          match Expect(']', rs.rest)
          case None => None
          case Some(rest) => if rest == [] then Some(rs.value) else None
  }

  // ---------------------------------------------------------------------------
  // Reading back what was written

  lemma ParseDigitsOf(d: string, rest: string)
    requires 1 <= |d| && AllDigits(d) && (|d| > 1 ==> d[0] != '0')
    requires rest == [] || !IsDigit(rest[0])
    ensures ParseDigits(d + rest) == Some(Parsed(Value(d), rest))
  {
    var s := d + rest;
    assert s[0] == d[0];
    DigitRunOfDigits(d, rest);
    assert s[..|d|] == d;
    assert s[|d|..] == rest;
  }

  lemma ParseNegativeStep(t: string, p: Parsed<nat>)
    requires ParseDigits(t) == Some(p)
    ensures ParseInt("-" + t) == Some(Parsed(-(p.value as int), p.rest))
  {
    assert ("-" + t)[1..] == t;
  }

  lemma ParseNegativeOfEncoding(n: int, rest: string)
    requires n < 0
    requires rest == [] || !IsDigit(rest[0])
    ensures ParseInt(EncodeInt(n) + rest) == Some(Parsed(n, rest))
  {
    var d := Digits(-n);
    assert EncodeInt(n) + rest == "-" + (d + rest);
    ParseDigitsOf(d, rest);
    ValueOfDigits(-n);
    ParseNegativeStep(d + rest, Parsed(Value(d), rest));
  }

  lemma ParseNonNegativeOfEncoding(n: int, rest: string)
    requires n >= 0
    requires rest == [] || !IsDigit(rest[0])
    ensures ParseInt(EncodeInt(n) + rest) == Some(Parsed(n, rest))
  {
    var d := Digits(n);
    assert (d + rest)[0] == d[0];
    ParseDigitsOf(d, rest);
    ValueOfDigits(n);
  }

  lemma ParseIntOfEncoding(n: int, rest: string)
    requires rest == [] || !IsDigit(rest[0])
    ensures ParseInt(EncodeInt(n) + rest) == Some(Parsed(n, rest))
  {
    if n < 0 {
      ParseNegativeOfEncoding(n, rest);
    } else {
      ParseNonNegativeOfEncoding(n, rest);
    }
  }

  /** The two-character escapes read back as the character they stand for. */
  lemma UnescapeShort(c: char, tail: string)
    requires NeedsEscape(c) && (c == '"' || c == '\\' || c == 8 as char || c == 12 as char || c == '\n' || c == '\r' || c == '\t')
    ensures |EscapeChar(c)| == 2 && EscapeChar(c)[0] == '\\'
    ensures Unescape(EscapeChar(c)[1..] + tail) == Some(Parsed(c, tail))
  {
    var u := EscapeChar(c)[1..] + tail;
    assert u[1..] == tail;
  }

  /** A `\u00XX` escape reads back as the control character it stands for. */
  lemma UnescapeHex(c: char, tail: string)
    requires c < ' ' && !(c == 8 as char || c == 12 as char || c == '\n' || c == '\r' || c == '\t')
    ensures |EscapeChar(c)| == 6 && EscapeChar(c)[0] == '\\'
    ensures Unescape(EscapeChar(c)[1..] + tail) == Some(Parsed(c, tail))
  {
    var hi := c as int / 16;
    var lo := c as int % 16;
    var u := EscapeChar(c)[1..] + tail;
    assert u == "u00" + [HexDigit(hi), HexDigit(lo)] + tail;
    assert u[3] == HexDigit(hi) && u[4] == HexDigit(lo);
    assert u[5..] == tail;
    assert (hi * 16 + lo) as char == c;
  }

  /** Reading one written character, then the rest of the literal. */
  lemma ParseTextBodyStep(c: char, tail: string)
    ensures ParseTextBody(EscapeChar(c) + tail) ==
      match ParseTextBody(tail)
      case None => None
      case Some(p) => Some(Parsed([c] + p.value, p.rest))
  {
    var s := EscapeChar(c) + tail;
    if NeedsEscape(c) {
      if c == '"' || c == '\\' || c == 8 as char || c == 12 as char || c == '\n' || c == '\r' || c == '\t' {
        UnescapeShort(c, tail);
      } else {
        UnescapeHex(c, tail);
      }
      assert s[0] == '\\';
      assert s[1..] == EscapeChar(c)[1..] + tail;
    } else {
      assert EscapeChar(c) == [c];
      assert s[0] == c && s[1..] == tail;
    }
  }

  lemma {:induction false} ParseTextBodyOfEscape(x: string, rest: string)
    ensures ParseTextBody(Escape(x) + ("\"" + rest)) == Some(Parsed(x, rest))
  {
    var q := "\"" + rest;
    if x == [] {
      assert Escape(x) + q == q;
    } else {
      var a := EscapeChar(x[0]);
      var b := Escape(x[1..]);
      ParseTextBodyOfEscape(x[1..], rest);
      assert Escape(x) + q == a + (b + q);
      ParseTextBodyStep(x[0], b + q);
      assert [x[0]] + x[1..] == x;
    }
  }

  /** Like `JSON.parse`, the reader refuses every number, signed or not, whose
      first digit is a '0' followed by another digit. */
  lemma RejectsLeadingZero(s: string)
    requires |s| >= 2 && s[0] == '0' && IsDigit(s[1])
    ensures ParseDigits(s) == None && ParseInt(s) == None && ParseInt("-" + s) == None
  {
    assert s[1..][0] == s[1];
    assert ("-" + s)[1..] == s;
  }

  /** The characters an escape takes up are all printable. */
  lemma UnescapeIsPrintable(s: string)
    ensures Unescape(s).Some? ==>
      var n := |s| - |Unescape(s).value.rest|;
      s[n..] == Unescape(s).value.rest && forall i :: 0 <= i < n ==> s[i] >= ' '
  {
  }

  /** Like `JSON.parse`, the reader takes no control character raw inside a
      string: every character of the literal it consumes, up to and including
      the closing quote, is at least U+0020, and what it leaves is the rest. */
  lemma {:induction false} TextBodyHasNoRawControl(s: string)
    ensures ParseTextBody(s).Some? ==>
      var n := |s| - |ParseTextBody(s).value.rest|;
      s[n..] == ParseTextBody(s).value.rest && forall i :: 0 <= i < n ==> s[i] >= ' '
    decreases |s|
  {
    if s != [] && s[0] == '\\' {
      UnescapeIsPrintable(s[1..]);
      var e := Unescape(s[1..]);
      if e.Some? {
        TextBodyHasNoRawControl(e.value.rest);
      }
    } else if s != [] && s[0] != '"' && s[0] >= ' ' {
      TextBodyHasNoRawControl(s[1..]);
    }
  }

  lemma ParseTextOfEncoding(x: string, rest: string)
    ensures ParseText(EncodeText(x) + rest) == Some(Parsed(x, rest))
  {
    var s := EncodeText(x) + rest;
    assert s[1..] == Escape(x) + ("\"" + rest);
    ParseTextBodyOfEscape(x, rest);
  }

  lemma ParseScalarOfEncoding(v: Scalar, rest: string)
    requires rest == [] || !IsDigit(rest[0])
    ensures ParseScalar(EncodeScalar(v) + rest) == Some(Parsed(v, rest))
  {
    match v
    case Num(n) =>
      ParseIntOfEncoding(n, rest);
      var d := if n < 0 then Digits(-n) else Digits(n);
      assert IsDigit(d[0]);
      assert n >= 0 ==> (EncodeInt(n) + rest)[0] == d[0];
    case Text(x) =>
      ParseTextOfEncoding(x, rest);
  }

  /** Regrouping a concatenation of four texts to the right. */
  lemma Regroup(a: string, b: string, c: string, d: string)
    ensures a + b + c + d == a + (b + (c + d))
  {
  }

  lemma ParseFieldStep(s: string, k: string, t: string, v: Scalar, rest: string)
    requires ParseText(s) == Some(Parsed(k, ":" + t))
    requires ParseScalar(t) == Some(Parsed(v, rest))
    ensures ParseField(s) == Some(Parsed(Field(k, v), rest))
  {
    assert Expect(':', ":" + t) == Some(t);
  }

  lemma ParseFieldOfEncoding(f: Field, rest: string)
    requires rest == [] || !IsDigit(rest[0])
    ensures ParseField(EncodeField(f) + rest) == Some(Parsed(f, rest))
  {
    var k := EncodeText(f.key);
    var e := EncodeScalar(f.value);
    Regroup(k, ":", e, rest);
    ParseTextOfEncoding(f.key, ":" + (e + rest));
    ParseScalarOfEncoding(f.value, rest);
    ParseFieldStep(k + (":" + (e + rest)), f.key, e + rest, f.value, rest);
  }

  /** `rest` cannot be read as the continuation of a list element. */
  predicate EndsElement(rest: string) {
    rest == [] || (rest[0] != ',' && !IsDigit(rest[0]))
  }

  lemma ParseFieldsLast(s: string, f: Field, rest: string)
    requires ParseField(s) == Some(Parsed(f, rest))
    requires rest == [] || rest[0] != ','
    ensures ParseFields(s) == Some(Parsed([f], rest))
  {
  }

  lemma ParseFieldsNext(s: string, f: Field, tail: string, fs: seq<Field>, rest: string)
    requires ParseField(s) == Some(Parsed(f, "," + tail))
    requires ParseFields(tail) == Some(Parsed(fs, rest))
    ensures ParseFields(s) == Some(Parsed([f] + fs, rest))
  {
    assert Expect(',', "," + tail) == Some(tail);
  }

  lemma ParseSingleField(f: Field, rest: string)
    requires EndsElement(rest)
    ensures ParseFields(EncodeFields([f]) + rest) == Some(Parsed([f], rest))
  {
    assert EncodeFields([f]) == EncodeField(f);
    ParseFieldOfEncoding(f, rest);
    ParseFieldsLast(EncodeField(f) + rest, f, rest);
  }

  lemma EncodeFieldsCons(f: Field, fs: seq<Field>)
    requires fs != []
    ensures EncodeFields([f] + fs) == EncodeField(f) + "," + EncodeFields(fs)
  {
    var g := [f] + fs;
    assert g[0] == f && g[1..] == fs && |g| > 1;
  }

  lemma ParseFieldsCons(f: Field, fs: seq<Field>, rest: string)
    requires fs != [] && EndsElement(rest)
    requires ParseFields(EncodeFields(fs) + rest) == Some(Parsed(fs, rest))
    ensures ParseFields(EncodeFields([f] + fs) + rest) == Some(Parsed([f] + fs, rest))
  {
    var a := EncodeField(f);
    var t := EncodeFields(fs);
    EncodeFieldsCons(f, fs);
    Regroup(a, ",", t, rest);
    ParseFieldOfEncoding(f, "," + (t + rest));
    ParseFieldsNext(a + ("," + (t + rest)), f, t + rest, fs, rest);
  }

  lemma {:induction false} ParseFieldsOfEncoding(fs: seq<Field>, rest: string)
    requires fs != [] && EndsElement(rest)
    ensures ParseFields(EncodeFields(fs) + rest) == Some(Parsed(fs, rest))
    decreases |fs|
  {
    if |fs| == 1 {
      ParseSingleField(fs[0], rest);
      assert [fs[0]] == fs;
    } else {
      ParseFieldsOfEncoding(fs[1..], rest);
      ParseFieldsCons(fs[0], fs[1..], rest);
      assert [fs[0]] + fs[1..] == fs;
    }
  }

  lemma EncodeFieldOpensWithQuote(f: Field)
    ensures |EncodeField(f)| > 0 && EncodeField(f)[0] == '"'
  {
    assert EncodeField(f) == "\"" + (Escape(f.key) + "\"" + ":" + EncodeScalar(f.value));
  }

  lemma EncodeFieldsOpensWithQuote(fs: seq<Field>)
    requires fs != []
    ensures |EncodeFields(fs)| > 0 && EncodeFields(fs)[0] == '"'
  {
    EncodeFieldOpensWithQuote(fs[0]);
    var f := EncodeField(fs[0]);
    if |fs| > 1 {
      assert EncodeFields(fs) == f + ("," + EncodeFields(fs[1..]));
    }
  }

  lemma ParseEmptyRecord(rest: string)
    ensures ParseRecord("{}" + rest) == Some(Parsed([], rest))
  {
    var s := "{}" + rest;
    assert s == "{" + ("}" + rest);
    assert s[1..] == "}" + rest;
    assert Expect('{', s) == Some("}" + rest);
    assert ("}" + rest)[1..] == rest;
    assert Expect('}', "}" + rest) == Some(rest);
  }

  lemma ParseNonEmptyRecord(body: string, fs: seq<Field>, rest: string)
    requires |body| > 0 && body[0] != '}'
    requires ParseFields(body) == Some(Parsed(fs, "}" + rest))
    ensures ParseRecord("{" + body) == Some(Parsed(fs, rest))
  {
    assert Expect('{', "{" + body) == Some(body);
    assert Expect('}', body) == None;
    assert Expect('}', "}" + rest) == Some(rest);
  }

  lemma ParseRecordOfEncoding(r: Record, rest: string)
    ensures ParseRecord(EncodeRecord(r) + rest) == Some(Parsed(r, rest))
  {
    if r == [] {
      assert EncodeRecord(r) + rest == "{}" + rest;
      ParseEmptyRecord(rest);
    } else {
      var body := EncodeFields(r) + ("}" + rest);
      Regroup("{", EncodeFields(r), "}", rest);
      ParseFieldsOfEncoding(r, "}" + rest);
      EncodeFieldsOpensWithQuote(r);
      assert body[0] == '"';
      ParseNonEmptyRecord(body, r, rest);
    }
  }

  lemma ParseRecordsLast(s: string, x: Record, rest: string)
    requires ParseRecord(s) == Some(Parsed(x, rest))
    requires rest == [] || rest[0] != ','
    ensures ParseRecords(s) == Some(Parsed([x], rest))
  {
  }

  lemma ParseRecordsNext(s: string, x: Record, tail: string, xs: seq<Record>, rest: string)
    requires ParseRecord(s) == Some(Parsed(x, "," + tail))
    requires ParseRecords(tail) == Some(Parsed(xs, rest))
    ensures ParseRecords(s) == Some(Parsed([x] + xs, rest))
  {
    assert Expect(',', "," + tail) == Some(tail);
  }

  lemma ParseSingleRecord(x: Record, rest: string)
    requires rest == [] || rest[0] != ','
    ensures ParseRecords(EncodeRecords([x]) + rest) == Some(Parsed([x], rest))
  {
    assert EncodeRecords([x]) == EncodeRecord(x);
    ParseRecordOfEncoding(x, rest);
    ParseRecordsLast(EncodeRecord(x) + rest, x, rest);
  }

  lemma EncodeRecordsCons(x: Record, xs: seq<Record>)
    requires xs != []
    ensures EncodeRecords([x] + xs) == EncodeRecord(x) + "," + EncodeRecords(xs)
  {
    var g := [x] + xs;
    assert g[0] == x && g[1..] == xs && |g| > 1;
  }

  lemma ParseRecordsCons(x: Record, xs: seq<Record>, rest: string)
    requires xs != []
    requires ParseRecords(EncodeRecords(xs) + rest) == Some(Parsed(xs, rest))
    ensures ParseRecords(EncodeRecords([x] + xs) + rest) == Some(Parsed([x] + xs, rest))
  {
    var a := EncodeRecord(x);
    var t := EncodeRecords(xs);
    EncodeRecordsCons(x, xs);
    Regroup(a, ",", t, rest);
    ParseRecordOfEncoding(x, "," + (t + rest));
    ParseRecordsNext(a + ("," + (t + rest)), x, t + rest, xs, rest);
  }

  lemma {:induction false} ParseRecordsOfEncoding(rs: seq<Record>, rest: string)
    requires rs != [] && (rest == [] || rest[0] != ',')
    ensures ParseRecords(EncodeRecords(rs) + rest) == Some(Parsed(rs, rest))
    decreases |rs|
  {
    if |rs| == 1 {
      ParseSingleRecord(rs[0], rest);
      assert [rs[0]] == rs;
    } else {
      ParseRecordsOfEncoding(rs[1..], rest);
      ParseRecordsCons(rs[0], rs[1..], rest);
      assert [rs[0]] + rs[1..] == rs;
    }
  }

  lemma EncodeRecordsOpensWithBrace(rs: seq<Record>)
    requires rs != []
    ensures |EncodeRecords(rs)| > 0 && EncodeRecords(rs)[0] == '{'
  {
    if |rs| > 1 {
      EncodeRecordsCons(rs[0], rs[1..]);
      assert [rs[0]] + rs[1..] == rs;
    }
  }

  lemma DecodeEmptyList()
    ensures DecodeList("[]") == Some([])
  {
    assert Expect('[', "[]") == Some("]");
    assert Expect(']', "]") == Some([]);
  }

  lemma DecodeNonEmptyList(body: string, rs: seq<Record>)
    requires |body| > 0 && body[0] != ']'
    requires ParseRecords(body) == Some(Parsed(rs, "]"))
    ensures DecodeList("[" + body) == Some(rs)
  {
    assert Expect('[', "[" + body) == Some(body);
    assert Expect(']', body) == None;
    assert Expect(']', "]") == Some([]);
  }

  /** What is written is read back unchanged, in the same order. */
  lemma DecodeEncodeList(rs: seq<Record>)
    ensures DecodeList(EncodeList(rs)) == Some(rs)
  {
    if rs == [] {
      assert EncodeList(rs) == "[]";
      DecodeEmptyList();
    } else {
      var body := EncodeRecords(rs) + "]";
      assert EncodeList(rs) == "[" + body;
      ParseRecordsOfEncoding(rs, "]");
      EncodeRecordsOpensWithBrace(rs);
      assert body[0] == '{';
      DecodeNonEmptyList(body, rs);
    }
  }
}
