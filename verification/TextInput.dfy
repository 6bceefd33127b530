/**
  What the parser makes of text that no serializer writes, and which form the serializer chooses
  for data (prog/encoding.go:206-313, 342-378, 509-561, 723-777, 779-787, 845-864).

  The round trip speaks of printed programs only.  These laws speak of old and hand-written ones:
  offsets, ranges outside memory, resized and listed data, unknown variables, comments.
 */
module TextInput {
  import opened Ir
  import opened Arith
  import opened Defaults
  import opened TextLex
  import opened TextParse
  import TextPrint
  import D = DefaultValues

  // ----- addresses -----

  /** The old offset notation adds or subtracts in 64 bits. */
  lemma {:induction false} OffsetRead(addr: U64, minus: bool, off: U64, rest: string)
    requires Ends(rest)
    ensures var r := ParseOffset(addr, (if minus then "-" else "+") + (Hex(off) + rest));
      && r.Token? && r.rest == rest
      && if minus then (r.v + off) % TWO64 == addr else r.v == (addr + off) % TWO64
  {
    var sign, body := if minus then '-' else '+', Hex(off) + rest;
    assert (if minus then "-" else "+") + body == [sign] + body;
    OffsetParsed(addr, sign, off, rest);
    MovedBack(addr, minus, off);
  }

  lemma {:induction false} OffsetParsed(addr: U64, sign: char, off: U64, rest: string)
    requires Ends(rest) && (sign == '-' || sign == '+')
    ensures ParseOffset(addr, [sign] + (Hex(off) + rest)) == Token(Moved(addr, sign == '-', off), rest)
  {
    EatOf(sign, Hex(off) + rest);
    NumberOfHex(off, rest);
  }

  lemma {:induction false} MovedBack(addr: U64, minus: bool, off: U64)
    ensures var r := Moved(addr, minus, off); if minus then (r + off) % TWO64 == addr else r == (addr + off) % TWO64
  {
  }

  /** A range is forced into memory: it is moved down to a page and made whole pages, at least one,
      no more than there are, and then moved so that it ends in memory. */
  lemma {:induction false} RangeForced(tgt: Target, addr: U64, size: U64)
    requires TargetOk(tgt) && tgt.numPages > 0
    ensures var (a, n) := ClampRange(tgt, addr, size);
      var page, max := tgt.pageSize, MaxMem(tgt);
      && a % page == 0 && n % page == 0 && page <= n && a + n <= max
      && (size + page <= TWO64 ==> n == max || (size <= n && (n < size + page || n == page)))
      && (n == max && size + page <= TWO64 ==> size > max - page || max == page)
      && (a == addr - addr % page || (a + n == max && addr > a))
  {
    var page, max := tgt.pageSize, MaxMem(tgt);
    Multiple(tgt.numPages, page);
    var down := DownTo(addr, page);
    var up := DownTo((size + page - 1) % TWO64, page);
    MultipleLe(tgt.numPages, 1, page);
    ForcedPages(tgt.numPages, down, up, page);
    RoundedUp(size, page, up);
  }

  lemma {:induction false} Multiple(k: nat, page: nat)
    requires page > 0
    ensures k * page % page == 0
  {
    DivModUnique(k * page, page, k, 0);
  }

  lemma {:induction false} MultipleLe(a: nat, b: nat, page: nat)
    requires a >= b
    ensures a * page >= b * page
  {
  }

  lemma {:induction false} DownTo(x: nat, page: nat) returns (k: nat)
    requires page > 0
    ensures RoundDown(x, page) == k * page && k * page <= x < k * page + page
  {
    k := x / page;
  }

  /** Clamping in whole pages. */
  lemma {:induction false} ForcedPages(pages: nat, down: nat, up: nat, page: nat)
    requires page > 0 && pages > 0
    ensures var (a, n) := Clamped(pages * page, page, down * page, up * page);
      && a % page == 0 && n % page == 0 && page <= n && a + n <= pages * page
      && n == (if up == 0 then page else if up > pages then pages * page else up * page)
      && (a == down * page || (a + n == pages * page && down * page > a))
  {
    var k := if up == 0 then 1 else if up > pages then pages else up;
    if up > pages { MultipleLe(up, pages + 1, page); } else { MultipleLe(pages, up, page); }
    MultipleLe(pages, 1, page);
    MultipleLe(k, 1, page);
    MultipleLe(pages, k, page);
    assert (pages - k) * page == pages * page - k * page;
    Multiple(k, page);
    Multiple(down, page);
    Multiple(pages - k, page);
  }

  lemma {:induction false} RoundedUp(size: U64, page: nat, up: nat)
    requires page > 0 && up * page <= (size + page - 1) % TWO64 < up * page + page
    ensures size + page <= TWO64 ==> size <= up * page < size + page
  {
  }

  /** A number where a pointer is expected is a special pointer of the target. */
  lemma {:induction false} SpecialRead(tgt: Target, t: Type, st: State, v: U64, rest: string)
    requires TargetOk(tgt) && (t.PtrT? || t.VmaT?) && Ends(rest)
    ensures var r := ParseInt(tgt, t, st, Hex(v) + rest);
      && r.Ok? && r.rest == rest && r.v.PointerArg? && r.v.typ == t && IsSpecial(r.v)
      && PhysicalAddr(tgt, r.v) == Some(tgt.special[(TWO64 - v) % TWO64 % |tgt.special|])
  {
    NumberOfHex(v, rest);
    SpecialIndex(v, |tgt.special|);
    var a := PointerArg(t, Neg64(Neg64(v) % |tgt.special|), 0, None);
    assert ParseInt(tgt, t, st, Hex(v) + rest) == Made(st, a, rest);
    assert IsSpecial(a) && PhysicalAddr(tgt, a) == Some(tgt.special[Neg64(v) % |tgt.special|]);
  }

  lemma {:induction false} SpecialIndex(v: U64, n: nat)
    requires 1 <= n <= MAX_SPECIAL_POINTERS
    ensures Neg64(Neg64(Neg64(v) % n)) == Neg64(v) % n < n
  {
  }

  // ----- data -----

  /** Data is cut or padded with zeros to its size; a string that is none of those listed becomes
      the first of them; output data keeps its size only. */
  lemma {:induction false} DataMade(t: Type, data: seq<Byte>, size: nat)
    requires t.BufferT?
    ensures var a := MakeData(t, data, size);
      var listed := t.kind == StringBuf && t.values != [] && !IsGenerated(t.values[0]);
      && a.DataArg? && a.typ == t
      && (t.com.dir == DirOut ==> a.data == [] && a.outSize == size)
      && (t.com.dir != DirOut ==>
           && a.outSize == 0
           && (listed ==> a.data in t.values)
           && (!listed || a.data != t.values[0] ==> IsResized(data, size, a.data))
           && (listed && !(exists d :: d in t.values && IsResized(data, size, d)) ==> a.data == t.values[0]))
  {
    var d := Resize(data, size);
    assert IsResized(data, size, d);
    ListedIs(t);
  }

  /** The mark of strings that the description compiler makes up. */
  predicate IsGenerated(b: seq<Byte>) {
    var mark := "AUTOGENERATED";
    |b| >= |mark| && forall i :: 0 <= i < |mark| ==> b[i] == mark[i] as int
  }

  predicate IsResized(data: seq<Byte>, size: nat, d: seq<Byte>) {
    |d| == size && forall i :: 0 <= i < size ==> d[i] == if i < |data| then data[i] else 0
  }

  lemma {:induction false} ListedIs(t: Type)
    requires t.BufferT?
    ensures Listed(t) <==> t.kind == StringBuf && t.values != [] && !IsGenerated(t.values[0])
  {
    if t.values != [] { GeneratedIs(t.values[0]); }
  }

  lemma {:induction false} GeneratedIs(b: seq<Byte>)
    ensures AUTOGENERATED <= b <==> IsGenerated(b)
  {
    var mark := "AUTOGENERATED";
    assert |mark| == |AUTOGENERATED| && forall i :: 0 <= i < |mark| ==> AUTOGENERATED[i] == mark[i] as int;
  }

  /** The size after a literal is cut to the size of memory. */
  lemma {:induction false} SizeRead(tgt: Target, n: U64, rest: string)
    requires TargetOk(tgt) && Ends(rest)
    ensures ParseSize(tgt, "/" + (Hex(n) + rest)) ==
            Token(Some(if n <= tgt.numPages * tgt.pageSize then n else tgt.numPages * tgt.pageSize), rest)
  {
    EatOf('/', Hex(n) + rest);
    NumberOfHex(n, rest);
  }

  /** Data is printed in quotes with escapes if its type holds strings or file names, or if it is
      not empty and all its bytes are printable characters, zeros or control characters that have a
      letter; in hexadecimal otherwise. */
  lemma {:induction false} FormChosen(a: Arg)
    requires a.DataArg? && a.typ.BufferT? && a.typ.com.dir != DirOut
    ensures var shown, text := TextPrint.ShownData(a.typ, a.data), TextPrint.PrintDataArg(a);
      && text != ""
      && (text[0] == '\'' <==>
            || a.typ.kind == StringBuf || a.typ.kind == FilenameBuf
            || (shown != [] && forall i :: 0 <= i < |shown| ==>
                 shown[i] == 0 || 7 <= shown[i] <= 13 || 32 <= shown[i] <= 126))
      && (text[0] != '\'' ==> text[0] == '"')
  {
    var shown := TextPrint.ShownData(a.typ, a.data);
    var text := PrintData(shown, TextPrint.ReadableType(a.typ));
    assert TextPrint.PrintDataArg(a)[0] == text[0];
  }

  // ----- scalars -----

  /** A number that an output scalar is given in the text is ignored. */
  lemma {:induction false} ScalarRead(tgt: Target, t: Type, st: State, v: U64, rest: string)
    requires TargetOk(tgt) && HasBits(t) && Ends(rest)
    ensures var r := ParseInt(tgt, t, st, Hex(v) + rest);
      && r.Ok? && r.rest == rest
      && if t.com.dir == DirOut && !t.LenT? then r.v.typ == t && D.Prescribed(tgt, r.v) else r.v == ConstArg(t, v)
  {
    NumberOfHex(v, rest);
  }

  /** A variable that nobody has defined stands for the default of the type. */
  lemma {:induction false} VariableRead(tgt: Target, t: Type, vars: map<string, Loc>, name: string, div: U64, add: U64)
    requires TargetOk(tgt) && TypeOk(|tgt.pointees|, t)
    ensures var a := MakeRef(tgt, t, vars, name, div, add);
      && a.typ == t
      && if name in vars then a == ResultArg(t, Some(vars[name]), div, add, 0) else D.Everywhere(tgt, a)
  {
    D.DefaultHolds(tgt, t);
  }

  /** So does nil. */
  lemma {:induction false} NilRead(tgt: Target, t: Type, st: State, rest: string)
    requires TargetOk(tgt) && TypeOk(|tgt.pointees|, t) && (rest != "" ==> !IsBlank(rest[0]))
    ensures var r := ParseArg(tgt, t, st, "nil" + rest);
      r.Ok? && r.rest == rest && r.v.typ == t && D.Everywhere(tgt, r.v)
  {
    var s := "nil" + rest;
    assert s == "n" + ("il" + rest) && "il" + rest == "i" + ("l" + rest);
    EatOf('n', "il" + rest);
    EatOf('i', "l" + rest);
    EatOf('l', rest);
    D.DefaultHolds(tgt, t);
  }

  // ----- lines -----

  /** Empty lines and comments are passed over, and so is a carriage return at the end of a line. */
  lemma {:induction false} LinesSkipped(tgt: Target, vars: map<string, Loc>, c: nat, s: string, lines: seq<string>)
    requires TargetOk(tgt) && |s| + 1 < MAX_LINE
    ensures s == "" || s[0] == '#' ==> ParseLines(tgt, vars, c, [s] + lines) == ParseLines(tgt, vars, c, lines)
    ensures (s != "" ==> s[|s| - 1] != '\r') ==>
            ParseLines(tgt, vars, c, [s + "\r"] + lines) == ParseLines(tgt, vars, c, [s] + lines)
  {
    assert ([s] + lines)[1..] == lines && ([s + "\r"] + lines)[1..] == lines;
    assert (s + "\r")[..|s|] == s;
  }
}
