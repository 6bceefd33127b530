/**
  Characters, identifiers, numbers and data literals of the program text
  (prog/encoding.go:715-960).  A character stands for a byte.

  A parser function takes the text that is left and returns what follows the token; the
  sticky error of the source is the result `Err`.
 */
module TextLex {
  import opened Ir
  import opened Defaults

  datatype Token<+T> = Err | Token(v: T, rest: string)

  predicate IsBlank(c: char) {
    c == ' ' || c == '\t'
  }

  function SkipWs(s: string): (r: string)
    ensures |r| <= |s| && (r != "" ==> !IsBlank(r[0]))
  {
    if s != "" && IsBlank(s[0]) then SkipWs(s[1..]) else s
  }

  /** Parse: one given character and the blanks after it. */
  function Eat(ch: char, s: string): (r: Token<()>)
    ensures r.Token? ==> |r.rest| < |s|
  {
    if s != "" && s[0] == ch then Token((), SkipWs(s[1..])) else Err
  }

  function IdentLen(s: string): (n: nat)
    ensures n <= |s|
  {
    if s != "" && IsIdentChar(s[0]) then 1 + IdentLen(s[1..]) else 0
  }

  /** Ident: a longest non-empty run of identifier characters and the blanks after it. */
  function Ident(s: string): (r: Token<string>)
    ensures r.Token? ==> |r.rest| < |s| && r.v != ""
  {
    var n := IdentLen(s);
    if n == 0 then Err else Token(s[..n], SkipWs(s[n..]))
  }

  /** The text goes on with something that ends an identifier and is not blank. */
  predicate Ends(s: string) {
    s != "" && !IsIdentChar(s[0]) && !IsBlank(s[0])
  }

  lemma {:induction false} IdentLenOf(x: string, rest: string)
    requires (forall i :: 0 <= i < |x| ==> IsIdentChar(x[i])) && (rest != "" ==> !IsIdentChar(rest[0]))
    ensures IdentLen(x + rest) == |x|
    decreases |x|
  {
    if x == "" {
      assert x + rest == rest;
    } else {
      assert (x + rest)[1..] == x[1..] + rest;
      IdentLenOf(x[1..], rest);
    }
  }

  lemma {:induction false} IdentOf(x: string, rest: string)
    requires IsIdent(x) && Ends(rest)
    ensures Ident(x + rest) == Token(x, rest)
  {
    IdentLenOf(x, rest);
    assert (x + rest)[..|x|] == x && (x + rest)[|x|..] == rest;
  }

  /** Eating a character of printed text. */
  lemma {:induction false} EatOf(ch: char, rest: string)
    requires rest != "" ==> !IsBlank(rest[0])
    ensures Eat(ch, [ch] + rest) == Token((), rest)
  {
    assert ([ch] + rest)[1..] == rest;
  }

  // ----- numbers -----

  function DigitChar(d: nat): (c: char)
    requires d < 16
    ensures IsIdentChar(c)
  {
    if d < 10 then '0' + d as char else 'a' + (d - 10) as char
  }

  function DigitVal(c: char): (r: Option<nat>)
    ensures r.Some? ==> r.value < 16
  {
    if '0' <= c <= '9' then Some((c - '0') as nat)
    else if 'a' <= c <= 'f' then Some((c - 'a') as nat + 10)
    else if 'A' <= c <= 'F' then Some((c - 'A') as nat + 10)
    else None
  }

  function Digits(n: nat, base: nat): (s: string)
    requires 2 <= base <= 16
    ensures IsIdent(s)
  {
    if n < base then [DigitChar(n)] else Digits(n / base, base) + [DigitChar(n % base)]
  }

  function DigitsVal(s: string, base: nat): Option<nat>
  {
    if s == "" then Some(0)
    else
      var hi := DigitsVal(s[..|s| - 1], base);
      var lo := DigitVal(s[|s| - 1]);
      if hi.Some? && lo.Some? && lo.value < base then Some(hi.value * base + lo.value) else None
  }

  function Hex(n: nat): (s: string)
    ensures IsIdent(s) && s[0] == '0'
  {
    "0x" + Digits(n, 16)
  }

  function Dec(n: nat): (s: string)
    ensures IsIdent(s)
  {
    Digits(n, 10)
  }

  /** strconv.ParseUint with base 0 and 64 bits. */
  function ParseUint(s: string): Option<U64> {
    var v :=
      if s == "" then None
      else if |s| > 1 && s[0] == '0' && (s[1] == 'x' || s[1] == 'X') then
        if |s| == 2 then None else DigitsVal(s[2..], 16)
      else if s[0] == '0' then DigitsVal(s[1..], 8)
      else DigitsVal(s, 10);
    if v.Some? && v.value < TWO64 then Some(v.value) else None
  }

  lemma {:induction false} DigitCharVal(d: nat)
    requires d < 16
    ensures DigitVal(DigitChar(d)) == Some(d)
  {
  }

  lemma {:induction false} DivMod(n: nat, base: nat)
    requires base > 0
    ensures n / base * base + n % base == n
  {
  }

  lemma {:induction false} DigitsValSnoc(hi: string, d: nat, base: nat)
    requires d < base <= 16 && DigitsVal(hi, base).Some?
    ensures DigitsVal(hi + [DigitChar(d)], base) == Some(DigitsVal(hi, base).value * base + d)
  {
    var s := hi + [DigitChar(d)];
    assert s[..|s| - 1] == hi && s[|s| - 1] == DigitChar(d);
    DigitCharVal(d);
  }

  lemma {:induction false} DigitsRoundTrip(n: nat, base: nat)
    requires 2 <= base <= 16
    ensures DigitsVal(Digits(n, base), base) == Some(n)
  {
    if n < base {
      DigitsValSnoc("", n, base);
      assert "" + [DigitChar(n)] == [DigitChar(n)];
    } else {
      DigitsRoundTrip(n / base, base);
      DivMod(n, base);
      DigitsValSnoc(Digits(n / base, base), n % base, base);
    }
  }

  /** Decimal numbers have no leading zero, so they are not read as octal. */
  lemma {:induction false} DecLeads(n: nat)
    requires n > 0
    ensures Dec(n)[0] != '0'
  {
    if n >= 10 {
      DecLeads(n / 10);
    }
  }

  lemma {:induction false} ParseHex(n: U64)
    ensures ParseUint(Hex(n)) == Some(n)
  {
    DigitsRoundTrip(n, 16);
    assert Hex(n)[2..] == Digits(n, 16);
  }

  lemma {:induction false} ParseDec(n: U64)
    ensures ParseUint(Dec(n)) == Some(n)
  {
    DigitsRoundTrip(n, 10);
    if n == 0 {
      assert Dec(0) == "0";
      assert "0"[1..] == "";
    } else {
      DecLeads(n);
    }
  }

  /** The name of a variable. */
  function Name(id: nat): (s: string)
    ensures IsIdent(s) && s[0] == 'r'
  {
    "r" + Dec(id)
  }

  lemma {:induction false} NameInjective(a: nat, b: nat)
    requires Name(a) == Name(b)
    ensures a == b
  {
    assert Name(a)[1..] == Dec(a) && Name(b)[1..] == Dec(b);
    DigitsRoundTrip(a, 10);
    DigitsRoundTrip(b, 10);
  }

  /** A number as an identifier followed by the rest of the text. */
  function Number(s: string): (r: Token<U64>)
    ensures r.Token? ==> |r.rest| < |s|
  {
    var id := Ident(s);
    if id.Err? then Err
    else
      var v := ParseUint(id.v);
      if v.None? then Err else Token(v.value, id.rest)
  }

  lemma {:induction false} NumberOfHex(n: U64, rest: string)
    requires Ends(rest)
    ensures Number(Hex(n) + rest) == Token(n, rest)
  {
    IdentOf(Hex(n), rest);
    ParseHex(n);
  }

  lemma {:induction false} NumberOfDec(n: U64, rest: string)
    requires Ends(rest)
    ensures Number(Dec(n) + rest) == Token(n, rest)
  {
    IdentOf(Dec(n), rest);
    ParseDec(n);
  }

  // ----- data -----

  /** toHexChar and fromHexChar. */
  function FromHexChar(c: char): (r: Option<nat>)
    ensures r.Some? ==> r.value < 16
  {
    if '0' <= c <= '9' then Some((c - '0') as nat)
    else if 'a' <= c <= 'f' then Some((c - 'a') as nat + 10)
    else None
  }

  function HexPair(b: Byte): (s: string)
    ensures |s| == 2 && IsIdentChar(s[0]) && IsIdentChar(s[1])
  {
    [DigitChar(b / 16), DigitChar(b % 16)]
  }

  /** hex.EncodeToString. */
  function HexData(data: seq<Byte>): (s: string)
    ensures |s| == 2 * |data| && forall i :: 0 <= i < |s| ==> IsIdentChar(s[i])
  {
    if data == [] then "" else HexPair(data[0]) + HexData(data[1..])
  }

  /** hex.DecodeString, which also takes capital letters. */
  function UnhexData(s: string): Option<seq<Byte>> {
    if s == "" then Some([])
    else if |s| == 1 then None
    else
      var hi, lo, r := DigitVal(s[0]), DigitVal(s[1]), UnhexData(s[2..]);
      if hi.Some? && lo.Some? && r.Some? then Some([(hi.value * 16 + lo.value) as Byte] + r.value) else None
  }

  lemma {:induction false} HexDataRoundTrip(data: seq<Byte>)
    ensures UnhexData(HexData(data)) == Some(data)
  {
    if data != [] {
      var b := data[0];
      DigitCharVal(b / 16);
      DigitCharVal(b % 16);
      assert HexData(data)[2..] == HexData(data[1..]);
      HexDataRoundTrip(data[1..]);
      assert data == [b] + data[1..];
    }
  }

  predicate IsPrintable(b: Byte) {
    0x20 <= b < 0x7f
  }

  /** The letter after the backslash for the bytes that have one. */
  function Letter(b: Byte): Option<char> {
    match b
    case 7 => Some('a')
    case 8 => Some('b')
    case 12 => Some('f')
    case 10 => Some('n')
    case 13 => Some('r')
    case 9 => Some('t')
    case 11 => Some('v')
    case 39 => Some('\'')
    case 34 => Some('"')
    case 92 => Some('\\')
    case _ => None
  }

  /** The byte a letter after the backslash stands for. */
  function Unletter(c: char): Option<Byte> {
    match c
    case 'a' => Some(7)
    case 'b' => Some(8)
    case 'f' => Some(12)
    case 'n' => Some(10)
    case 'r' => Some(13)
    case 't' => Some(9)
    case 'v' => Some(11)
    case '\'' => Some(39)
    case '"' => Some(34)
    case '\\' => Some(92)
    case _ => None
  }

  /** encodeData for one byte of readable data. */
  function EscapeByte(b: Byte): (s: string)
    ensures s != "" && s[0] != '\'' && s[0] as nat != 0
  {
    var l := Letter(b);
    if l.Some? then ['\\', l.value]
    else if IsPrintable(b) then [b as char]
    else "\\x" + HexPair(b)
  }

  function Escape(data: seq<Byte>): string
  {
    if data == [] then "" else EscapeByte(data[0]) + Escape(data[1..])
  }

  /** One byte of readable data: what consume and the escape switch do. */
  function UnescapeByte(s: string): (r: Token<Byte>)
    requires s != ""
    ensures r.Token? ==> |r.rest| < |s|
  {
    if s[0] != '\\' then
      if s[0] as int < 256 then Token(s[0] as int, s[1..]) else Err
    else if |s| < 2 then Err
    else if s[1] == 'x' then
      if |s| < 4 then Err
      else
        var hi, lo := FromHexChar(s[2]), FromHexChar(s[3]);
        if hi.Some? && lo.Some? then Token((hi.value * 16 + lo.value) as Byte, s[4..]) else Err
    else
      var b := Unletter(s[1]);
      if b.Some? then Token(b.value, s[2..]) else Err
  }

  /** Readable data up to the closing quote, which is eaten. */
  function Unescape(s: string): (r: Token<seq<Byte>>)
    ensures r.Token? ==> |r.rest| < |s|
  {
    if s == "" || s[0] as nat == 0 then Err
    else if s[0] == '\'' then Token([], SkipWs(s[1..]))
    else
      var b := UnescapeByte(s);
      if b.Err? then Err
      else
        var r := Unescape(b.rest);
        if r.Err? then Err else Token([b.v] + r.v, r.rest)
  }

  lemma {:induction false} UnescapeByteOf(b: Byte, rest: string)
    ensures UnescapeByte(EscapeByte(b) + rest) == Token(b, rest)
  {
    var s := EscapeByte(b) + rest;
    if Letter(b).Some? {
      assert s[2..] == rest;
    } else if IsPrintable(b) {
      assert s[1..] == rest;
    } else {
      assert s[2] == DigitChar(b / 16) && s[3] == DigitChar(b % 16) && s[4..] == rest;
    }
  }

  lemma {:induction false} UnescapeOf(data: seq<Byte>, rest: string)
    requires rest != "" ==> !IsBlank(rest[0])
    ensures Unescape(Escape(data) + ("'" + rest)) == Token(data, rest)
  {
    var s := Escape(data) + ("'" + rest);
    if data == [] {
      assert s == "'" + rest && s[1..] == rest;
    } else {
      var next := Escape(data[1..]) + ("'" + rest);
      assert s == EscapeByte(data[0]) + next;
      UnescapeByteOf(data[0], next);
      UnescapeOf(data[1..], rest);
      assert data == [data[0]] + data[1..];
    }
  }

  predicate IsReadableByte(b: Byte) {
    IsPrintable(b) || b == 0 || 7 <= b <= 13
  }

  predicate IsReadable(data: seq<Byte>) {
    data != [] && forall i :: 0 <= i < |data| ==> IsReadableByte(data[i])
  }

  /** serializeData. */
  function PrintData(data: seq<Byte>, readable: bool): (s: string)
    ensures s != "" && (s[0] == '\'' || s[0] == '"')
  {
    if !readable && !IsReadable(data) then ['"'] + HexData(data) + ['"']
    else ['\''] + Escape(data) + ['\'']
  }

  /** The hexadecimal form, after its opening quote. */
  function ParseHexData(s: string): (r: Token<seq<Byte>>)
    ensures r.Token? ==> |r.rest| < |s|
  {
    if s == "" then Err
    else
      var id := if s[0] == '"' then Token("", s) else Ident(s);
      if id.Err? then Err
      else
        var close := Eat('"', id.rest);
        var data := UnhexData(id.v);
        if close.Err? || data.None? then Err else Token(data.value, close.rest)
  }

  /** deserializeData. */
  function ParseData(s: string): (r: Token<seq<Byte>>)
    ensures r.Token? ==> |r.rest| < |s|
  {
    if s == "" then Err
    else if s[0] == '"' then ParseHexData(SkipWs(s[1..]))
    else if s[0] == '\'' then Unescape(s[1..])
    else Err
  }

  lemma {:induction false} HexLiteral(data: seq<Byte>, rest: string)
    requires rest != "" ==> !IsBlank(rest[0])
    ensures ParseHexData(HexData(data) + ("\"" + rest)) == Token(data, rest)
  {
    var tail := "\"" + rest;
    EatOf('"', rest);
    HexDataRoundTrip(data);
    if data == [] {
      assert HexData(data) + tail == tail;
    } else {
      assert (HexData(data) + tail)[0] == HexData(data)[0];
      IdentOf(HexData(data), tail);
    }
  }

  /** What ParseData does after an opening quote. */
  lemma {:induction false} ParseDataOpens(q: char, s: string)
    requires s != "" && (q == '"' ==> !IsBlank(s[0]))
    ensures q == '"' ==> ParseData([q] + s) == ParseHexData(s)
    ensures q == '\'' ==> ParseData([q] + s) == Unescape(s)
  {
    assert ([q] + s)[1..] == s;
  }

  function Quoted(q: char, body: string, rest: string): string {
    [q] + body + [q] + rest
  }

  lemma {:induction false} QuotedOpens(q: char, body: string, rest: string)
    ensures Quoted(q, body, rest) == [q] + (body + ([q] + rest))
  {
  }

  lemma {:induction false} QuotedHex(data: seq<Byte>, rest: string)
    requires rest != "" ==> !IsBlank(rest[0])
    ensures ParseData(Quoted('"', HexData(data), rest)) == Token(data, rest)
  {
    HexLiteral(data, rest);
    QuotedOpens('"', HexData(data), rest);
    ParseDataOpens('"', HexData(data) + ("\"" + rest));
  }

  lemma {:induction false} QuotedText(data: seq<Byte>, rest: string)
    requires rest != "" ==> !IsBlank(rest[0])
    ensures ParseData(Quoted('\'', Escape(data), rest)) == Token(data, rest)
  {
    UnescapeOf(data, rest);
    QuotedOpens('\'', Escape(data), rest);
    ParseDataOpens('\'', Escape(data) + ("'" + rest));
  }

  /** Any data comes back from its literal. */
  lemma {:induction false} DataRoundTrip(data: seq<Byte>, readable: bool, rest: string)
    requires rest != "" ==> !IsBlank(rest[0])
    ensures ParseData(PrintData(data, readable) + rest) == Token(data, rest)
  {
    if !readable && !IsReadable(data) {
      QuotedHex(data, rest);
    } else {
      QuotedText(data, rest);
    }
  }

  /** Text of one line: only printable characters. */
  predicate Plain(s: string) {
    forall i :: 0 <= i < |s| ==> 0x20 <= s[i] as int < 0x7f
  }

  lemma {:induction false} EscapePlain(data: seq<Byte>)
    ensures Plain(Escape(data))
  {
    if data != [] {
      EscapePlain(data[1..]);
      assert Plain(EscapeByte(data[0]));
    }
  }

  lemma {:induction false} PrintDataPlain(data: seq<Byte>, readable: bool)
    ensures Plain(PrintData(data, readable))
  {
    EscapePlain(data);
  }
}
