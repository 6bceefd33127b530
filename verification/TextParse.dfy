/**
  The recursive-descent parser of program text: Deserialize in non-strict mode
  (prog/encoding.go:206-760).

  The parser numbers the result arguments of a call as it makes them, which is their order in
  the tree.  Constructs with no printed counterpart are errors here: AUTO and ANY, and the
  recovery from arguments that do not fit their type (eatExcessive).
 */
module TextParse {
  import opened Ir
  import opened Defaults
  import opened TextLex
  import TextPrint

  const MAX_LINE: nat := 0x10_0000

  /** Variables, and the location the next result argument will have. */
  datatype State = State(vars: map<string, Loc>, call: nat, next: nat)

  datatype Parsed<+T> = Fail | Ok(v: T, st: State, rest: string)

  predicate SyscallOk(n: nat, sc: Syscall) {
    && IsIdent(sc.name)
    && TypesOk(n, sc.args) && (forall i :: 0 <= i < |sc.args| ==> !IsPad(sc.args[i]))
    && (sc.ret.Some? ==> sc.ret.value.ResourceT? && sc.ret.value.com.dir == DirOut)
  }

  predicate TargetOk(tgt: Target) {
    && PointeesOk(tgt)
    && tgt.pageSize > 0 && MaxMem(tgt) <= TextPrint.ADDR_BASE
    && 1 <= |tgt.special| <= MAX_SPECIAL_POINTERS
    && (forall i :: 0 <= i < |tgt.syscalls| ==> SyscallOk(|tgt.pointees|, tgt.syscalls[i]))
    && forall i, j :: 0 <= i < j < |tgt.syscalls| ==> tgt.syscalls[i].name != tgt.syscalls[j].name
  }

  /** An argument made by the parser. */
  function Made(st: State, a: Arg, rest: string): Parsed<Arg> {
    Ok(a, st.(next := st.next + NumResults(a)), rest)
  }

  // ----- leaves -----

  function ParseInt(tgt: Target, t: Type, st: State, s: string): (r: Parsed<Arg>)
    requires TargetOk(tgt)
    ensures r.Ok? ==> |r.rest| < |s|
  {
    var v := Number(s);
    if v.Err? then Fail
    else if HasBits(t) then
      Made(st, ConstArg(t, if t.com.dir == DirOut && !t.LenT? then DefaultVal(t) else v.v), v.rest)
    else if t.ResourceT? then Made(st, ResultArg(t, None, 0, 0, v.v), v.rest)
    else if t.PtrT? || t.VmaT? then Made(st, PointerArg(t, Neg64(Neg64(v.v) % |tgt.special|), 0, None), v.rest)
    else Fail
  }

  /** An operation `op` with its operand; 0 when it is absent. */
  function ParseOp(op: char, s: string): (r: Token<U64>)
    ensures r.Token? ==> |r.rest| <= |s|
  {
    if s == "" then Err
    else if s[0] != op then Token(0, s)
    else
      var e := Eat(op, s);
      if e.Err? then Err else Number(e.rest)
  }

  function ParseRef(tgt: Target, t: Type, st: State, s: string): (r: Parsed<Arg>)
    requires TargetOk(tgt) && TypeOk(|tgt.pointees|, t)
    ensures r.Ok? ==> |r.rest| < |s|
  {
    var id := Ident(s);
    if id.Err? then Fail
    else
      var div := ParseOp('/', id.rest);
      if div.Err? then Fail
      else
        var add := ParseOp('+', div.rest);
        if add.Err? then Fail else Made(st, MakeRef(tgt, t, st.vars, id.v, div.v, add.v), add.rest)
  }

  /** A reference to a variable; an unknown variable gives the default of the type. */
  function MakeRef(tgt: Target, t: Type, vars: map<string, Loc>, name: string, div: U64, add: U64): Arg
    requires TargetOk(tgt) && TypeOk(|tgt.pointees|, t)
  {
    if name in vars then ResultArg(t, Some(vars[name]), div, add, 0) else DefaultArg(tgt, t)
  }

  /** The old offset notation after an address. */
  function ParseOffset(addr: U64, s: string): (r: Token<U64>)
    ensures r.Token? ==> |r.rest| <= |s|
  {
    if s == "" then Err
    else if s[0] != '+' && s[0] != '-' then Token(addr, s)
    else
      var e := Eat(s[0], s);
      if e.Err? then Err
      else
        var off := Number(e.rest);
        if off.Err? then Err
        else Token(Moved(addr, s[0] == '-', off.v), off.rest)
  }

  /** An address with an offset, in 64 bits. */
  function Moved(addr: U64, minus: bool, off: U64): U64 {
    (addr + (if minus then Neg64(off) else off)) % TWO64
  }

  function RoundDown(x: nat, page: nat): nat
    requires page > 0
  {
    x - x % page
  }

  /** Address and size of a memory range, forced into memory and to page bounds. */
  function ClampRange(tgt: Target, addr: U64, size: U64): (nat, nat)
    requires TargetOk(tgt)
  {
    Clamped(MaxMem(tgt), tgt.pageSize, RoundDown(addr, tgt.pageSize),
        RoundDown((size + tgt.pageSize - 1) % TWO64, tgt.pageSize))
  }

  /** A rounded range, cut to `max` bytes of memory. */
  function Clamped(max: nat, page: nat, a: nat, rounded: nat): (nat, nat) {
    var vma := if rounded == 0 then page else rounded;
    var vma := if vma > max then max else vma;
    (if a > max - vma then max - vma else a, vma)
  }

  /** The optional size after an address. */
  function ParseRange(tgt: Target, addr: U64, s: string): (r: Token<(nat, nat)>)
    requires TargetOk(tgt)
    ensures r.Token? ==> |r.rest| <= |s|
  {
    if s == "" then Err
    else if s[0] != '/' then Token((addr, 0), s)
    else
      var e := Eat('/', s);
      if e.Err? then Err
      else
        var size := Number(e.rest);
        if size.Err? then Err else Token(ClampRange(tgt, addr, size.v), size.rest)
  }

  /** The opening parenthesis and the address, relative to the base of printed addresses. */
  function ParseBase(s: string): (r: Token<U64>)
    ensures r.Token? ==> |r.rest| < |s|
  {
    var open := Eat('(', s);
    if open.Err? then Err
    else
      var n := Number(open.rest);
      if n.Err? || n.v < TextPrint.ADDR_BASE then Err else Token(n.v - TextPrint.ADDR_BASE, n.rest)
  }

  /** parseAddr. */
  function ParseAddr(tgt: Target, s: string): (r: Token<(nat, nat)>)
    requires TargetOk(tgt)
    ensures r.Token? ==> |r.rest| < |s|
  {
    var base := ParseBase(s);
    if base.Err? then Err else ParseAddrTail(tgt, base.v, base.rest)
  }

  function ParseAddrTail(tgt: Target, addr: U64, s: string): (r: Token<(nat, nat)>)
    requires TargetOk(tgt)
    ensures r.Token? ==> |r.rest| < |s|
  {
    var off := ParseOffset(addr, s);
    if off.Err? then Err
    else
      var range := ParseRange(tgt, off.v, off.rest);
      if range.Err? then Err
      else
        var close := Eat(')', range.rest);
        if close.Err? then Err else Token(range.v, close.rest)
  }

  /** The size after a data literal, cut to the size of memory; None when absent. */
  function ParseSize(tgt: Target, s: string): (r: Token<Option<nat>>)
    requires TargetOk(tgt)
    ensures r.Token? ==> |r.rest| <= |s|
  {
    if s == "" then Err
    else if s[0] != '/' then Token(None, s)
    else
      var e := Eat('/', s);
      if e.Err? then Err
      else
        var n := Number(e.rest);
        if n.Err? then Err else Token(Some(if n.v > MaxMem(tgt) then MaxMem(tgt) else n.v), n.rest)
  }

  const AUTOGENERATED: seq<Byte> := [65, 85, 84, 79, 71, 69, 78, 69, 82, 65, 84, 69, 68]

  /** The type lists the values its strings may have. */
  predicate Listed(t: Type) {
    t.BufferT? && t.kind == StringBuf && t.values != [] && !(AUTOGENERATED <= t.values[0])
  }

  function Resize(data: seq<Byte>, size: nat): seq<Byte> {
    if size > |data| then data + Zeros(size - |data|) else data[..size]
  }

  function MakeData(t: Type, data: seq<Byte>, size: nat): Arg
    requires t.BufferT?
  {
    if t.com.dir == DirOut then DataArg(t, [], size)
    else
      var data := Resize(data, size);
      DataArg(t, if Listed(t) && data !in t.values then t.values[0] else data, 0)
  }

  function ParseString(tgt: Target, t: Type, st: State, s: string): (r: Parsed<Arg>)
    requires TargetOk(tgt)
    ensures r.Ok? ==> |r.rest| < |s|
  {
    if !t.BufferT? then Fail
    else
      var d := ParseData(s);
      if d.Err? then Fail
      else
        var size := ParseSize(tgt, d.rest);
        if size.Err? then Fail
        else
          var n := if !t.com.varlen then t.com.size else if size.v.Some? then size.v.value else |d.v|;
          Made(st, MakeData(t, d.v, n), size.rest)
  }

  /** The word nil. */
  function ParseNil(s: string): (r: Token<()>)
    ensures r.Token? ==> |r.rest| < |s|
  {
    var n := Eat('n', s);
    if n.Err? then n
    else
      var i := Eat('i', n.rest);
      if i.Err? then i else Eat('l', i.rest)
  }

  function MakeVma(tgt: Target, t: Type, addr: nat, size: nat): Arg
    requires TargetOk(tgt) && addr < TWO64 && size < TWO64
  {
    PointerArg(t, RoundDown(addr, tgt.pageSize), size, None)
  }

  /** A memory range; it may be followed by `=nil`. */
  function ParseVma(tgt: Target, t: Type, st: State, addr: nat, size: nat, s: string): (r: Parsed<Arg>)
    requires TargetOk(tgt)
    ensures r.Ok? ==> |r.rest| <= |s|
  {
    if s == "" || addr >= TWO64 || size >= TWO64 then Fail
    else if s[0] != '=' then Made(st, MakeVma(tgt, t, addr, size), s)
    else
      var e := Eat('=', s);
      if e.Err? then Fail
      else
        var nil := ParseNil(e.rest);
        if nil.Err? then Fail else Made(st, MakeVma(tgt, t, addr, size), nil.rest)
  }

  // ----- trees -----

  /** parseArg: an argument, perhaps with a variable name in front. */
  function ParseArg(tgt: Target, t: Type, st: State, s: string): (r: Parsed<Arg>)
    requires TargetOk(tgt) && TypeOk(|tgt.pointees|, t)
    ensures r.Ok? ==> |r.rest| < |s|
    decreases |s|, 2, 0
  {
    if s == "" then Fail
    else if s[0] != '<' then ParseImpl(tgt, t, st, s)
    else
      var name := ParseName(s);
      if name.Err? then Fail
      else Bind(name.v, Loc(st.call, st.next), ParseImpl(tgt, t, st, name.rest))
  }

  /** A name in angle brackets. */
  function ParseName(s: string): (r: Token<string>)
    ensures r.Token? ==> |r.rest| < |s|
  {
    var open := Eat('<', s);
    if open.Err? then Err
    else
      var id := Ident(open.rest);
      if id.Err? then Err
      else
        var eq := Eat('=', id.rest);
        if eq.Err? then Err
        else
          var close := Eat('>', eq.rest);
          if close.Err? then Err else Token(id.v, close.rest)
  }

  function Bind(name: string, l: Loc, r: Parsed<Arg>): Parsed<Arg> {
    if r.Ok? && r.v.ResultArg? then r.(st := r.st.(vars := r.st.vars[name := l])) else r
  }

  /** parseArgImpl. */
  function ParseImpl(tgt: Target, t: Type, st: State, s: string): (r: Parsed<Arg>)
    requires TargetOk(tgt) && TypeOk(|tgt.pointees|, t)
    ensures r.Ok? ==> |r.rest| < |s|
    decreases |s|, 1, 0
  {
    if s == "" then Fail
    else match s[0]
      case '0' => ParseInt(tgt, t, st, s)
      case 'r' => ParseRef(tgt, t, st, s)
      case '&' => ParsePointer(tgt, t, st, s)
      case '"' => ParseString(tgt, t, st, s)
      case '\'' => ParseString(tgt, t, st, s)
      case '{' => if t.StructT? then ParseGroup(tgt, t, '{', '}', st, s) else Fail
      case '[' => if t.ArrayT? then ParseGroup(tgt, t, '[', ']', st, s) else Fail
      case '@' => if t.UnionT? then ParseUnion(tgt, t, st, s) else Fail
      case 'n' =>
        var nil := ParseNil(s);
        if nil.Err? then Fail else Made(st, DefaultArg(tgt, t), nil.rest)
      case _ => Fail
  }

  function ParsePointer(tgt: Target, t: Type, st: State, s: string): (r: Parsed<Arg>)
    requires TargetOk(tgt) && TypeOk(|tgt.pointees|, t)
    ensures r.Ok? ==> |r.rest| < |s|
    decreases |s|, 0, 0
  {
    if !t.PtrT? && !t.VmaT? then Fail
    else
      var amp := Eat('&', s);
      if amp.Err? then Fail
      else
        var addr := ParseAddr(tgt, amp.rest);
        if addr.Err? then Fail
        else if t.VmaT? then ParseVma(tgt, t, st, addr.v.0, addr.v.1, addr.rest)
        else PointTo(t, addr.v.0, ParsePart(tgt, tgt.pointees[t.pointee], st, addr.rest))
  }

  function PointTo(t: Type, addr: nat, r: Parsed<Arg>): Parsed<Arg> {
    if r.Ok? && addr < TWO64 then Ok(PointerArg(t, addr, 0, Some(r.v)), r.st, r.rest) else Fail
  }

  function ParseUnion(tgt: Target, t: Type, st: State, s: string): (r: Parsed<Arg>)
    requires TargetOk(tgt) && TypeOk(|tgt.pointees|, t) && t.UnionT?
    ensures r.Ok? ==> |r.rest| < |s|
    decreases |s|, 0, 0
  {
    var at := Eat('@', s);
    if at.Err? then Fail
    else
      var name := Ident(at.rest);
      if name.Err? then Fail
      else
        var o := FindOption(t.options, name.v);
        if o.None? then Fail
        else
          assert TypeOk(|tgt.pointees|, o.value) by { OptionOk(|tgt.pointees|, t.options, name.v); }
          Choose(t, ParsePart(tgt, o.value, st, name.rest))
  }

  function Choose(t: Type, r: Parsed<Arg>): Parsed<Arg> {
    if r.Ok? then Ok(UnionArg(t, r.v), r.st, r.rest) else Fail
  }

  lemma {:induction false} OptionOk(n: nat, options: seq<Type>, name: string)
    requires TypesOk(n, options) && FindOption(options, name).Some?
    ensures TypeOk(n, FindOption(options, name).value)
  {
    if options[0].com.field != name { OptionOk(n, options[1..], name); }
  }

  /** A part after `=`, or the default when there is none. */
  function ParsePart(tgt: Target, t: Type, st: State, s: string): (r: Parsed<Arg>)
    requires TargetOk(tgt) && TypeOk(|tgt.pointees|, t)
    ensures r.Ok? ==> |r.rest| <= |s|
    decreases |s|, 0, 0
  {
    if s == "" then Fail
    else if s[0] != '=' then Made(st, DefaultArg(tgt, t), s)
    else
      var e := Eat('=', s);
      if e.Err? then Fail else ParseArg(tgt, t, st, e.rest)
  }

  function ParseGroup(tgt: Target, t: Type, open: char, close: char, st: State, s: string): (r: Parsed<Arg>)
    requires TargetOk(tgt) && TypeOk(|tgt.pointees|, t) && (t.StructT? || t.ArrayT?)
    ensures r.Ok? ==> |r.rest| < |s|
    decreases |s|, 0, 0
  {
    var e := Eat(open, s);
    if e.Err? then Fail else Collect(t, ParseItems(tgt, ShapeOf(t), close, st, e.rest))
  }

  function Collect(t: Type, r: Parsed<seq<Arg>>): Parsed<Arg> {
    if r.Ok? then Ok(GroupArg(t, r.v), r.st, r.rest) else Fail
  }

  /** Members up to the closing character.  Padding takes no text; members not given get their
      defaults. */
  function ParseItems(tgt: Target, sh: Shape, close: char, st: State, s: string): (r: Parsed<seq<Arg>>)
    requires TargetOk(tgt) && ShapeOk(|tgt.pointees|, sh)
    ensures r.Ok? ==> |r.rest| < |s|
    decreases |s|, 3, if sh.Fields? then |sh.types| else 0
  {
    if s == "" then Fail
    else if s[0] == close then
      var fill := Fill(tgt, sh);
      Ok(fill, st.(next := st.next + NumResultsSeq(fill)), SkipWs(s[1..]))
    else if Head(sh).None? then Fail
    else if IsPad(Head(sh).value) then Push(ConstArg(Head(sh).value, 0), ParseItems(tgt, Tail(sh), close, st, s))
    else
      var a := ParseArg(tgt, Head(sh).value, st, s);
      if a.Fail? then Fail
      else
        var next := AfterItem(close, a.rest);
        if next.Err? then Fail else Push(a.v, ParseItems(tgt, Tail(sh), close, a.st, next.rest))
  }

  /** The comma after a member that is not the last. */
  function AfterItem(close: char, s: string): (r: Token<()>)
    ensures r.Token? ==> |r.rest| <= |s|
  {
    if s == "" then Err else if s[0] == close then Token((), s) else Eat(',', s)
  }

  function Push(a: Arg, r: Parsed<seq<Arg>>): Parsed<seq<Arg>> {
    if r.Ok? then Ok([a] + r.v, r.st, r.rest) else Fail
  }

  // ----- calls and programs -----

  function FindSyscall(calls: seq<Syscall>, name: string): (r: Option<Syscall>)
    ensures r.Some? ==> r.value in calls && r.value.name == name
  {
    if calls == [] then None else if calls[0].name == name then Some(calls[0]) else FindSyscall(calls[1..], name)
  }

  /** The name in front of a call: with or without a variable for its result. */
  function ParseCallName(s: string): (r: Token<(Option<string>, string)>) {
    var id := Ident(s);
    if id.Err? || id.rest == "" then Err
    else if id.rest[0] != '=' then Token((None, id.v), id.rest)
    else
      var eq := Eat('=', id.rest);
      if eq.Err? then Err
      else
        var name := Ident(eq.rest);
        if name.Err? then Err else Token((Some(id.v), name.v), name.rest)
  }

  datatype Line = Line(call: Call, vars: map<string, Loc>)

  /** A line with a call.  A comment may follow it. */
  function ParseLine(tgt: Target, vars: map<string, Loc>, c: nat, s: string): Option<Line>
    requires TargetOk(tgt)
  {
    var name := ParseCallName(s);
    if name.Err? then None
    else
      var meta := FindSyscall(tgt.syscalls, name.v.1);
      if meta.None? then None
      else
        var open := Eat('(', name.rest);
        if open.Err? then None
        else
          var args := ParseItems(tgt, Fields(meta.value.args), ')', State(vars, c, 1), open.rest);
          if args.Fail? || (args.rest != "" && args.rest[0] != '#') then None
          else Some(MakeLine(meta.value, name.v.0, c, args.v, args.st.vars))
  }

  function MakeLine(meta: Syscall, name: Option<string>, c: nat, args: seq<Arg>, vars: map<string, Loc>): Line {
    Line(Call(meta, args, if meta.ret.Some? then Some(ReturnArg(meta.ret.value)) else None),
         if name.Some? && meta.ret.Some? then vars[name.value := Loc(c, 0)] else vars)
  }

  function IndexOf(c: char, s: string): (n: nat)
    ensures n <= |s|
  {
    if s == "" || s[0] == c then 0 else 1 + IndexOf(c, s[1..])
  }

  /** bufio.ScanLines. */
  function Lines(s: string): seq<string> {
    if s == "" then []
    else
      var n := IndexOf('\n', s);
      if n == |s| then [s] else [s[..n]] + Lines(s[n + 1..])
  }

  function DropCR(s: string): string {
    if s != "" && s[|s| - 1] == '\r' then s[..|s| - 1] else s
  }

  /** parseProg from line `lines[0]`, with `c` calls read.  Empty lines and comments are passed
      over; a line of a megabyte is an error of the scanner. */
  function ParseLines(tgt: Target, vars: map<string, Loc>, c: nat, lines: seq<string>): Option<Program>
    requires TargetOk(tgt)
    decreases |lines|
  {
    if lines == [] then Some([])
    else if |lines[0]| >= MAX_LINE then None
    else
      var s := DropCR(lines[0]);
      if s == "" || s[0] == '#' then ParseLines(tgt, vars, c, lines[1..])
      else
        var l := ParseLine(tgt, vars, c, s);
        if l.None? then None
        else Cons(l.value.call, ParseLines(tgt, l.value.vars, c + 1, lines[1..]))
  }

  function Cons(call: Call, p: Option<Program>): Option<Program> {
    if p.Some? then Some([call] + p.value) else None
  }

  /** Deserialize. */
  function Deserialize(tgt: Target, text: string): Option<Program>
    requires TargetOk(tgt)
  {
    var p := ParseLines(tgt, map[], 0, Lines(text));
    if p.Some? && ValidProg(tgt, p.value) then p else None
  }
}
