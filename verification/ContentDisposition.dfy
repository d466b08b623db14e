/** The `Content-Disposition` header made for a file name, and how its readers take it apart. */
module ContentDisposition {
  import opened Outcomes

  /** A UTF-16 code unit: JavaScript strings are sequences of these. */
  type Unit = n: int | 0 <= n < 0x10000

  type Byte = n: int | 0 <= n < 0x100

  /** A Unicode scalar value. */
  type Scalar = n: int | 0 <= n < 0xD800 || 0xE000 <= n < 0x110000

  // ---- Unicode ----

  predicate IsHigh(u: Unit) { 0xD800 <= u < 0xDC00 }

  predicate IsLow(u: Unit) { 0xDC00 <= u < 0xE000 }

  function FromPair(high: int, low: int): int {
    (high - 0xD800) * 0x400 + (low - 0xDC00) + 0x10000
  }

  /** The characters of a string; none for a lone surrogate. */
  function Scalars(units: seq<Unit>): Result<seq<Scalar>> {
    if units == [] then Ok([])
    else if !IsHigh(units[0]) && !IsLow(units[0]) then
      var others :- Scalars(units[1..]);
      Ok([units[0] as int] + others)
    else if IsHigh(units[0]) && |units| > 1 && IsLow(units[1]) then
      var others :- Scalars(units[2..]);
      Ok([FromPair(units[0], units[1])] + others)
    else Err
  }

  /** The code units of one character. */
  function Units(c: Scalar): seq<Unit> {
    if c < 0x10000 then [c]
    else [0xD800 + (c - 0x10000) / 0x400, 0xDC00 + (c - 0x10000) % 0x400]
  }

  function AllUnits(cs: seq<Scalar>): seq<Unit> {
    if cs == [] then [] else Units(cs[0]) + AllUnits(cs[1..])
  }

  function Utf8(c: Scalar): seq<Byte> {
    var c1 := c / 0x40;
    var c2 := c1 / 0x40;
    if c < 0x80 then [c]
    else if c < 0x800 then [0xC0 + c1, 0x80 + c % 0x40]
    else if c < 0x10000 then [0xE0 + c2, 0x80 + c1 % 0x40, 0x80 + c % 0x40]
    else [0xF0 + c2 / 0x40, 0x80 + c2 % 0x40, 0x80 + c1 % 0x40, 0x80 + c % 0x40]
  }

  predicate IsTail(b: Byte) { 0x80 <= b < 0xC0 }

  /** A character read, and how many bytes it took. */
  datatype Reading = Reading(c: Scalar, length: nat)

  /** A character from its leading bits and the bytes that follow. */
  function Joined(lead: int, tail: seq<int>): int
    decreases |tail|
  {
    if tail == [] then lead else Joined(lead * 0x40 + (tail[0] - 0x80), tail[1..])
  }

  /** One character from the front of a UTF-8 text, shortest forms only, with its length. */
  function ReadUtf8(bs: seq<Byte>): (r: Option<Reading>)
    ensures r.Some? ==> 0 < r.value.length <= |bs|
  {
    if bs == [] then None
    else
      var b: int := bs[0];
      if b < 0x80 then Some(Reading(b, 1))
      else if 0xC2 <= b < 0xE0 then Tailed(b - 0xC0, bs, 1, 0x80)
      else if 0xE0 <= b < 0xF0 then Tailed(b - 0xE0, bs, 2, 0x800)
      else if 0xF0 <= b < 0xF5 then Tailed(b - 0xF0, bs, 3, 0x10000)
      else None
  }

  function Tailed(lead: int, bs: seq<Byte>, n: nat, least: int): (r: Option<Reading>)
    requires bs != [] && 0 <= least
    ensures r.Some? ==> 0 < r.value.length <= |bs|
  {
    if |bs| <= n || exists i :: 1 <= i <= n && !IsTail(bs[i]) then None
    else
      var c := Joined(lead, bs[1..n + 1]);
      if least <= c < 0x110000 && !(0xD800 <= c < 0xE000) then Some(Reading(c, n + 1)) else None
  }

  function DecodeUtf8(bs: seq<Byte>): Option<seq<Scalar>>
    decreases |bs|
  {
    if bs == [] then Some([])
    else
      var first := ReadUtf8(bs);
      if first.None? then None
      else
        var others := DecodeUtf8(bs[first.value.length..]);
        if others.None? then None else Some([first.value.c] + others.value)
  }

  // ---- percent encoding ----

  function HexDigit(n: int): (c: char)
    requires 0 <= n < 16
    ensures IsHexDigit(c) && HexValue(c) == n
  {
    if n < 10 then ('0' as int + n) as char else ('A' as int + (n - 10)) as char
  }

  predicate IsHexDigit(c: char) { '0' <= c <= '9' || 'A' <= c <= 'F' }

  function HexValue(c: char): int
    requires IsHexDigit(c)
  {
    if c <= '9' then c as int - '0' as int else c as int - 'A' as int + 10
  }

  function Percent(b: Byte): string {
    ['%', HexDigit(b / 16), HexDigit(b % 16)]
  }

  function PercentAll(bs: seq<Byte>): string {
    if bs == [] then "" else Percent(bs[0]) + PercentAll(bs[1..])
  }

  predicate IsAlphanumeric(c: char) {
    '0' <= c <= '9' || 'a' <= c <= 'z' || 'A' <= c <= 'Z'
  }

  /** What `encodeURIComponent` leaves as it is. */
  predicate IsUnreserved(c: char) {
    IsAlphanumeric(c) || c == '-' || c == '_' || c == '.' || c == '!' || c == '~' || IsNonAttr(c)
  }

  /** `attr-char` of section 3.2.1 of RFC 8187. */
  predicate IsAttrChar(c: char) {
    IsAlphanumeric(c) || c == '!' || c == '#' || c == '$' || c == '&' || c == '+' || c == '-' || c == '.' ||
    c == '^' || c == '_' || c == '`' || c == '|' || c == '~'
  }

  predicate IsNonAttr(c: char) {
    c == '\'' || c == '(' || c == ')' || c == '*'
  }

  function EncodeOne(c: Scalar): string {
    if c < 0x80 && IsUnreserved(c as char) then [c as char] else PercentAll(Utf8(c))
  }

  function EncodeAll(cs: seq<Scalar>): string {
    if cs == [] then "" else EncodeOne(cs[0]) + EncodeAll(cs[1..])
  }

  /** An exception for a lone surrogate. */
  function EncodeUriComponent(units: seq<Unit>): Result<string> {
    var cs :- Scalars(units);
    Ok(EncodeAll(cs))
  }

  /** `replace` of the characters that are no `attr-char`. */
  function EscapeNonAttr(s: string): string {
    if s == "" then ""
    else (if IsNonAttr(s[0]) then Percent(s[0] as int) else [s[0]]) + EscapeNonAttr(s[1..])
  }

  function ToExtValue(units: seq<Unit>): Result<string> {
    var encoded :- EncodeUriComponent(units);
    Ok(EscapeNonAttr(encoded))
  }

  // ---- the header ----

  predicate IsQuotable(u: Unit) {
    0x20 <= u <= 0x21 || 0x23 <= u <= 0x5B || 0x5D <= u <= 0x7E
  }

  function Quotable(units: seq<Unit>): (r: string)
    ensures |r| == |units|
  {
    seq(|units|, i requires 0 <= i < |units| => if IsQuotable(units[i]) then units[i] as char else '_')
  }

  const DOWNLOAD: seq<Unit> := [0x64, 0x6F, 0x77, 0x6E, 0x6C, 0x6F, 0x61, 0x64]

  function NameFor(filename: Option<seq<Unit>>): seq<Unit> {
    if filename.None? || filename.value == [] then DOWNLOAD else filename.value
  }

  const ATTACHMENT := "attachment"
  const FILENAME := "filename"
  const FILENAME_EXT := "filename*"
  const UTF8_PREFIX := "UTF-8''"

  /** `; name="value"` */
  function QuotedParameter(name: string, value: string): string {
    [';', ' '] + (name + (['=', '"'] + (value + ['"'])))
  }

  /** `; name=value` */
  function TokenParameter(name: string, value: string): string {
    [';', ' '] + (name + (['='] + value))
  }

  function BuildContentDisposition(filename: Option<seq<Unit>>): Result<string> {
    var name := NameFor(filename);
    var ext :- ToExtValue(name);
    Ok(ATTACHMENT + (QuotedParameter(FILENAME, Quotable(name)) + TokenParameter(FILENAME_EXT, UTF8_PREFIX + ext)))
  }

  // ---- readers: RFC 8187 values ----

  function PercentDecode(s: string): Option<seq<Byte>>
    decreases |s|
  {
    if s == "" then Some([])
    else if s[0] == '%' then
      if |s| > 2 && IsHexDigit(s[1]) && IsHexDigit(s[2]) then
        var others := PercentDecode(s[3..]);
        if others.None? then None else Some([HexValue(s[1]) * 16 + HexValue(s[2])] + others.value)
      else None
    else if IsAttrChar(s[0]) then
      var others := PercentDecode(s[1..]);
      if others.None? then None else Some([s[0] as int] + others.value)
    else None
  }

  /** Refuses everything that is no sequence of `attr-char` and percent triples of well-formed UTF-8. */
  function DecodeExtValue(s: string): Option<seq<Unit>> {
    var bs := PercentDecode(s);
    if bs.None? then None
    else
      var cs := DecodeUtf8(bs.value);
      if cs.None? then None else Some(AllUnits(cs.value))
  }

  // ---- the name survives ----

  lemma {:induction false} UnitsAndScalars(units: seq<Unit>)
    requires Scalars(units).Ok?
    ensures AllUnits(Scalars(units).value) == units
    decreases |units|
  {
    if units != [] {
      if !IsHigh(units[0]) && !IsLow(units[0]) {
        UnitsAndScalars(units[1..]);
        assert Scalars(units).value[1..] == Scalars(units[1..]).value;
      } else {
        UnitsAndScalars(units[2..]);
        assert Scalars(units).value[1..] == Scalars(units[2..]).value;
        assert units == [units[0], units[1]] + units[2..];
      }
    }
  }

  lemma JoinTwo(lead: int, a: int, b: int)
    ensures Joined(lead, [a]) == lead * 0x40 + (a - 0x80)
    ensures Joined(lead, [a, b]) == (lead * 0x40 + (a - 0x80)) * 0x40 + (b - 0x80)
  {
    assert [a][1..] == [] && [a, b][1..] == [b] && [b][1..] == [];
    assert Joined(lead * 0x40 + (a - 0x80), [b]) == (lead * 0x40 + (a - 0x80)) * 0x40 + (b - 0x80);
  }

  lemma JoinThree(lead: int, a: int, b: int, d: int)
    ensures Joined(lead, [a, b, d]) == ((lead * 0x40 + (a - 0x80)) * 0x40 + (b - 0x80)) * 0x40 + (d - 0x80)
  {
    assert [a, b, d][1..] == [b, d];
    JoinTwo(lead * 0x40 + (a - 0x80), b, d);
  }

  lemma Utf8OneReads(c: Scalar, more: seq<Byte>)
    ensures ReadUtf8(Utf8(c) + more) == Some(Reading(c, |Utf8(c)|))
  {
    var bs := Utf8(c) + more;
    var c1 := c / 0x40;
    var c2 := c1 / 0x40;
    if c < 0x80 {
    } else if c < 0x800 {
      assert bs[1..2] == [0x80 + c % 0x40];
      JoinTwo(c1, 0x80 + c % 0x40, 0x80);
    } else if c < 0x10000 {
      assert bs[1..3] == [0x80 + c1 % 0x40, 0x80 + c % 0x40];
      JoinTwo(c2, 0x80 + c1 % 0x40, 0x80 + c % 0x40);
    } else {
      assert bs[1..4] == [0x80 + c2 % 0x40, 0x80 + c1 % 0x40, 0x80 + c % 0x40];
      JoinThree(c2 / 0x40, 0x80 + c2 % 0x40, 0x80 + c1 % 0x40, 0x80 + c % 0x40);
    }
  }

  function Utf8All(cs: seq<Scalar>): seq<Byte> {
    if cs == [] then [] else Utf8(cs[0]) + Utf8All(cs[1..])
  }

  lemma {:induction false} Utf8RoundTrip(cs: seq<Scalar>)
    ensures DecodeUtf8(Utf8All(cs)) == Some(cs)
  {
    if cs != [] {
      Utf8OneReads(cs[0], Utf8All(cs[1..]));
      var bs := Utf8All(cs);
      assert bs[|Utf8(cs[0])|..] == Utf8All(cs[1..]);
      Utf8RoundTrip(cs[1..]);
      assert cs == [cs[0]] + cs[1..];
    }
  }

  lemma {:induction false} EscapeConcat(a: string, b: string)
    ensures EscapeNonAttr(a + b) == EscapeNonAttr(a) + EscapeNonAttr(b)
  {
    if a == "" {
      assert a + b == b;
    } else {
      assert (a + b)[1..] == a[1..] + b;
      EscapeConcat(a[1..], b);
    }
  }

  lemma {:induction false} EscapeKeepsPercents(bs: seq<Byte>)
    ensures EscapeNonAttr(PercentAll(bs)) == PercentAll(bs)
  {
    if bs != [] {
      EscapeKeepsPercents(bs[1..]);
      EscapeConcat(Percent(bs[0]), PercentAll(bs[1..]));
      EscapeKeepsOne(bs[0]);
    }
  }

  lemma EscapeKeepsOne(b: Byte)
    ensures EscapeNonAttr(Percent(b)) == Percent(b)
  {
    var s := Percent(b);
    assert s[1..][1..] == [s[2]] && s[1..][1..][1..] == "";
    assert EscapeNonAttr([s[2]]) == [s[2]] by {
      assert [s[2]][1..] == "";
    }
    assert EscapeNonAttr(s[1..]) == s[1..];
  }

  lemma {:induction false} DecodePercents(bs: seq<Byte>, more: string)
    requires PercentDecode(more).Some?
    ensures PercentDecode(PercentAll(bs) + more) == Some(bs + PercentDecode(more).value)
  {
    var rest := PercentDecode(more).value;
    if bs == [] {
      assert PercentAll(bs) + more == more && [] + rest == rest;
    } else {
      DecodePercents(bs[1..], more);
      var tail := PercentAll(bs[1..]) + more;
      assert PercentAll(bs) + more == Percent(bs[0]) + tail;
      assert [bs[0]] + (bs[1..] + rest) == bs + rest;
    }
  }

  /** Decoding takes back what encoding and escaping made of one character. */
  lemma DecodeOne(c: Scalar, more: string)
    requires PercentDecode(more).Some?
    ensures PercentDecode(EscapeNonAttr(EncodeOne(c)) + more) == Some(Utf8(c) + PercentDecode(more).value)
  {
    if c < 0x80 && IsUnreserved(c as char) {
      var ch := c as char;
      assert [ch][1..] == "";
      if IsNonAttr(ch) {
        assert EscapeNonAttr([ch]) == Percent(c) + "" == Percent(c);
        assert PercentAll([c]) == Percent(c) by {
          assert [c][1..] == [];
        }
        DecodePercents([c], more);
      } else {
        assert EscapeNonAttr([ch]) == [ch];
        assert ([ch] + more)[1..] == more;
      }
    } else {
      EscapeKeepsPercents(Utf8(c));
      DecodePercents(Utf8(c), more);
    }
  }

  lemma {:induction false} DecodeAll(cs: seq<Scalar>)
    ensures PercentDecode(EscapeNonAttr(EncodeAll(cs))) == Some(Utf8All(cs))
  {
    if cs != [] {
      DecodeAll(cs[1..]);
      EscapeConcat(EncodeOne(cs[0]), EncodeAll(cs[1..]));
      DecodeOne(cs[0], EscapeNonAttr(EncodeAll(cs[1..])));
    }
  }

  /**
   * For every name without lone surrogates the ext-value decodes to the name; since the decoder
   * accepts nothing else, it consists of `attr-char`s and percent triples.
   */
  lemma ExtValueRoundTrip(units: seq<Unit>)
    requires Scalars(units).Ok?
    ensures ToExtValue(units).Ok? && DecodeExtValue(ToExtValue(units).value) == Some(units)
  {
    var cs := Scalars(units).value;
    DecodeAll(cs);
    Utf8RoundTrip(cs);
    UnitsAndScalars(units);
  }

  // ---- readers: the header (section 4.1 of RFC 6266) ----

  datatype Param = Param(name: string, value: string)

  datatype Header = Header(kind: string, params: seq<Param>)

  predicate IsTokenChar(c: char) {
    IsAttrChar(c) || c == '%' || c == '\'' || c == '*'
  }

  predicate IsToken(s: string) {
    forall i :: 0 <= i < |s| ==> IsTokenChar(s[i])
  }

  /** The longest token at the front. */
  function Token(s: string): (r: string)
    ensures |r| <= |s|
  {
    if s != "" && IsTokenChar(s[0]) then [s[0]] + Token(s[1..]) else ""
  }

  predicate IsQuotedText(c: char) {
    c == '\t' || ' ' <= c <= '!' || '#' <= c <= '[' || ']' <= c <= '~' || 0x80 <= c as int <= 0xFF
  }

  datatype Piece = Piece(value: string, rest: string)

  /** The rest of a quoted string after its opening quote, quoted pairs resolved. */
  function QuotedRest(s: string): (r: Option<Piece>)
    ensures r.Some? ==> |r.value.rest| < |s|
    decreases |s|
  {
    if s == "" then None
    else if s[0] == '"' then Some(Piece("", s[1..]))
    else if s[0] == '\\' then
      if |s| < 2 then None else Prepended(s[1], QuotedRest(s[2..]))
    else if IsQuotedText(s[0]) then Prepended(s[0], QuotedRest(s[1..]))
    else None
  }

  function Prepended(c: char, p: Option<Piece>): (r: Option<Piece>)
    ensures r.Some? ==> p.Some? && r.value.rest == p.value.rest
  {
    if p.None? then None else Some(p.value.(value := [c] + p.value.value))
  }

  function SkipSpaces(s: string): (r: string)
    ensures |r| <= |s|
  {
    if s != "" && (s[0] == ' ' || s[0] == '\t') then SkipSpaces(s[1..]) else s
  }

  /** The value after an equals sign: a quoted string or a token. */
  function ReadValue(s: string): (r: Option<Piece>)
    ensures r.Some? ==> |r.value.rest| <= |s|
  {
    if s != "" && s[0] == '"' then QuotedRest(s[1..])
    else
      var t := Token(s);
      if t == "" then None else Some(Piece(t, s[|t|..]))
  }

  datatype ParamPiece = ParamPiece(param: Param, rest: string)

  function ParseParam(t: string): (r: Option<ParamPiece>)
    ensures r.Some? ==> |r.value.rest| <= |t|
  {
    var name := Token(t);
    if name == "" || |name| == |t| || t[|name|] != '=' then None
    else
      var value := ReadValue(t[|name| + 1..]);
      if value.None? then None else Some(ParamPiece(Param(name, value.value.value), value.value.rest))
  }

  function ParseParams(s: string): Option<seq<Param>>
    decreases |s|
  {
    if s == "" then Some([])
    else if s[0] != ';' then None
    else
      var first := ParseParam(SkipSpaces(s[1..]));
      if first.None? then None
      else
        var others := ParseParams(SkipSpaces(first.value.rest));
        if others.None? then None else Some([first.value.param] + others.value)
  }

  function ParseHeader(s: string): Option<Header> {
    var kind := Token(s);
    var params := ParseParams(SkipSpaces(s[|kind|..]));
    if kind == "" || params.None? then None else Some(Header(kind, params.value))
  }

  // ---- the header says what it should ----

  lemma {:induction false} TokenStops(t: string, rest: string)
    requires IsToken(t) && (rest == "" || !IsTokenChar(rest[0]))
    ensures Token(t + rest) == t
  {
    if t == "" {
      assert t + rest == rest;
    } else {
      assert (t + rest)[1..] == t[1..] + rest;
      TokenStops(t[1..], rest);
    }
  }

  predicate IsQuotableText(s: string) {
    forall i :: 0 <= i < |s| ==> IsQuotedText(s[i])
  }

  lemma {:induction false} QuotedStops(q: string, rest: string)
    requires IsQuotableText(q)
    ensures QuotedRest(q + (['"'] + rest)) == Some(Piece(q, rest))
  {
    if q == "" {
      assert q + (['"'] + rest) == ['"'] + rest;
      assert (['"'] + rest)[1..] == rest;
    } else {
      var s := q + (['"'] + rest);
      assert s[1..] == q[1..] + (['"'] + rest);
      QuotedStops(q[1..], rest);
      assert [q[0]] + q[1..] == q;
    }
  }

  lemma ParamReads(name: string, s: string, v: Piece)
    requires IsToken(name) && name != "" && ReadValue(s) == Some(v)
    ensures ParseParam(name + (['='] + s)) == Some(ParamPiece(Param(name, v.value), v.rest))
  {
    var t := name + (['='] + s);
    TokenStops(name, ['='] + s);
    assert t[|name|] == '=' && t[|name| + 1..] == s;
  }

  lemma SkipOne(t: string)
    requires t != "" && IsTokenChar(t[0])
    ensures SkipSpaces(([';', ' '] + t)[1..]) == t
  {
    assert ([';', ' '] + t)[1..] == [' '] + t && ([' '] + t)[1..] == t;
  }

  /** A separator and a parameter in front of a list of parameters. */
  lemma ParamsRead(t: string, p: ParamPiece)
    requires t != "" && IsTokenChar(t[0]) && ParseParam(t) == Some(p)
    requires (p.rest == "" || p.rest[0] == ';') && ParseParams(p.rest).Some?
    ensures ParseParams([';', ' '] + t) == Some([p.param] + ParseParams(p.rest).value)
  {
    SkipOne(t);
  }

  lemma Regroup(a: string, b: string, c: string, d: string, e: string, f: string)
    ensures (a + (b + (c + (d + e)))) + f == a + (b + (c + (d + (e + f))))
  {
    assert (d + e) + f == d + (e + f);
    assert (c + (d + e)) + f == c + ((d + e) + f);
    assert (b + (c + (d + e))) + f == b + ((c + (d + e)) + f);
  }

  lemma QuotedShape(name: string, q: string, rest: string)
    ensures QuotedParameter(name, q) + rest == [';', ' '] + (name + (['='] + (['"'] + (q + (['"'] + rest)))))
  {
    Regroup([';', ' '], name, ['=', '"'], q, ['"'], rest);
    var more := q + (['"'] + rest);
    assert ['=', '"'] + more == ['='] + (['"'] + more);
  }

  lemma QuotedParamReads(name: string, q: string, rest: string)
    requires IsToken(name) && name != "" && IsQuotableText(q) && (rest == "" || rest[0] == ';') &&
      ParseParams(rest).Some?
    ensures ParseParams(QuotedParameter(name, q) + rest) == Some([Param(name, q)] + ParseParams(rest).value)
  {
    var s := ['"'] + (q + (['"'] + rest));
    var t := name + (['='] + s);
    QuotedValueReads(q, rest);
    ParamReads(name, s, Piece(q, rest));
    assert t[0] == name[0];
    ParamsRead(t, ParamPiece(Param(name, q), rest));
    QuotedShape(name, q, rest);
  }

  lemma QuotedValueReads(q: string, rest: string)
    requires IsQuotableText(q)
    ensures ReadValue(['"'] + (q + (['"'] + rest))) == Some(Piece(q, rest))
  {
    var s := ['"'] + (q + (['"'] + rest));
    assert s[1..] == q + (['"'] + rest);
    QuotedStops(q, rest);
  }

  lemma TokenParamReads(name: string, value: string)
    requires IsToken(name) && name != "" && IsToken(value) && value != ""
    ensures ParseParams(TokenParameter(name, value)) == Some([Param(name, value)])
  {
    TokenStops(value, "");
    assert value + "" == value;
    assert value[|value|..] == "";
    ParamReads(name, value, Piece(value, ""));
    var t := name + (['='] + value);
    assert t[0] == name[0];
    ParamsRead(t, ParamPiece(Param(name, value), ""));
    assert [Param(name, value)] + [] == [Param(name, value)];
  }

  lemma {:induction false} ExtValuesAreTokens(s: string)
    requires PercentDecode(s).Some?
    ensures IsToken(s)
    decreases |s|
  {
    if s != "" {
      if s[0] == '%' {
        ExtValuesAreTokens(s[3..]);
        forall i | 0 <= i < |s| ensures IsTokenChar(s[i]) {
          assert i >= 3 ==> s[i] == s[3..][i - 3];
        }
      } else {
        ExtValuesAreTokens(s[1..]);
        forall i | 0 <= i < |s| ensures IsTokenChar(s[i]) {
          assert i >= 1 ==> s[i] == s[1..][i - 1];
        }
      }
    }
  }

  lemma {:induction false} DownloadIsPlain(units: seq<Unit>)
    requires forall i :: 0 <= i < |units| ==> !IsHigh(units[i]) && !IsLow(units[i])
    ensures Scalars(units).Ok?
  {
    if units != [] {
      DownloadIsPlain(units[1..]);
    }
  }

  lemma FixedPartsAreTokens()
    ensures IsToken(ATTACHMENT) && ATTACHMENT != "" && IsToken(FILENAME) && FILENAME != ""
    ensures IsToken(FILENAME_EXT) && FILENAME_EXT != "" && IsToken(UTF8_PREFIX) && UTF8_PREFIX != ""
  {
  }

  lemma QuotableIsQuotedText(units: seq<Unit>)
    ensures IsQuotableText(Quotable(units))
  {
  }

  /** A header that starts with a token and goes on with parameters. */
  lemma HeaderReads(kind: string, params: string)
    requires IsToken(kind) && kind != "" && params != "" && params[0] == ';' && ParseParams(params).Some?
    ensures ParseHeader(kind + params) == Some(Header(kind, ParseParams(params).value))
  {
    TokenStops(kind, params);
    assert (kind + params)[|kind|..] == params;
  }

  /** The name of the download: the one given, unless it is missing or empty. */
  ghost predicate IsName(filename: Option<seq<Unit>>, name: seq<Unit>) {
    if filename.Some? && filename.value != [] then name == filename.value
    else |name| == 8 && forall i :: 0 <= i < 8 ==> name[i] as int == "download"[i] as int
  }

  /** Unit by unit the name, with an underscore for what a quoted text cannot hold as it is. */
  ghost predicate IsFallback(name: seq<Unit>, text: string) {
    |text| == |name| &&
    forall i :: 0 <= i < |name| ==>
      if 0x20 <= name[i] <= 0x7E && name[i] != 0x22 && name[i] != 0x5C then text[i] as int == name[i]
      else text[i] == '_'
  }

  /**
   * A header can be made of every name without lone surrogates and of no other name. Its readers
   * find exactly the three parts: the disposition type, a quoted fallback, and an ext-value that
   * decodes to the name.
   */
  lemma HeaderHasThreeParts(filename: Option<seq<Unit>>, name: seq<Unit>)
    requires IsName(filename, name)
    ensures BuildContentDisposition(filename).Ok? <==> Scalars(name).Ok?
    ensures Scalars(name).Ok? ==>
      var fallback, ext := Quotable(name), ToExtValue(name).value;
      ParseHeader(BuildContentDisposition(filename).value) ==
        Some(Header("attachment", [Param("filename", fallback), Param("filename*", "UTF-8''" + ext)])) &&
      IsFallback(name, fallback) && DecodeExtValue(ext) == Some(name)
  {
    NameIsTaken(filename, name);
    QuotableIsFallback(name);
    if Scalars(name).Ok? {
      ExtValueRoundTrip(name);
      PartsRead(Quotable(name), name);
    }
  }

  lemma NameIsTaken(filename: Option<seq<Unit>>, name: seq<Unit>)
    requires IsName(filename, name)
    ensures name == NameFor(filename)
  {
    if filename.None? || filename.value == [] {
      assert "download" == ['d', 'o', 'w', 'n', 'l', 'o', 'a', 'd'];
      assert forall i :: 0 <= i < 8 ==> name[i] == DOWNLOAD[i];
    }
  }

  lemma QuotableIsFallback(name: seq<Unit>)
    ensures IsFallback(name, Quotable(name))
  {
  }

  lemma PartsRead(fallback: string, name: seq<Unit>)
    requires fallback == Quotable(name) && Scalars(name).Ok? && ToExtValue(name).Ok?
    ensures
      var ext := ToExtValue(name).value;
      ParseHeader(ATTACHMENT + (QuotedParameter(FILENAME, fallback) + TokenParameter(FILENAME_EXT, UTF8_PREFIX + ext)))
        == Some(Header(ATTACHMENT, [Param(FILENAME, fallback), Param(FILENAME_EXT, UTF8_PREFIX + ext)]))
  {
    ExtValueRoundTrip(name);
    ExtValuesAreTokens(ToExtValue(name).value);
    FixedPartsAreTokens();
    QuotableIsQuotedText(name);
    TwoParamsRead(ATTACHMENT, FILENAME, fallback, FILENAME_EXT, UTF8_PREFIX + ToExtValue(name).value);
  }

  /** The `attr-char` of RFC 8187. */
  lemma AttrCharsExactly(c: char)
    ensures IsAttrChar(c) <==>
      '0' <= c <= '9' || 'a' <= c <= 'z' || 'A' <= c <= 'Z' || c in "!#$&+-.^_`|~"
  {
  }

  lemma TwoParamsRead(kind: string, first: string, quoted: string, second: string, value: string)
    requires IsToken(kind) && kind != "" && IsToken(first) && first != "" && IsToken(second) && second != ""
    requires IsQuotableText(quoted) && IsToken(value) && value != ""
    ensures ParseHeader(kind + (QuotedParameter(first, quoted) + TokenParameter(second, value))) ==
      Some(Header(kind, [Param(first, quoted), Param(second, value)]))
  {
    var tail := TokenParameter(second, value);
    TokenParamReads(second, value);
    QuotedParamReads(first, quoted, tail);
    HeaderReads(kind, QuotedParameter(first, quoted) + tail);
    assert [Param(first, quoted)] + [Param(second, value)] == [Param(first, quoted), Param(second, value)];
  }

  /** Printable ASCII names without quotes and backslashes appear literally in the fallback. */
  lemma PlainNamesAreLiteral(name: seq<Unit>, i: nat)
    requires i < |name|
    ensures Quotable(name)[i] as int == name[i] <==>
      (0x20 <= name[i] <= 0x7E && name[i] != '"' as int && name[i] != '\\' as int)
    ensures Quotable(name)[i] as int == name[i] || Quotable(name)[i] == '_'
  {
  }
}
