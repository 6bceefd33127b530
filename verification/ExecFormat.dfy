/**
  The exec format of prog/encodingexec.go and its decoder, prog/decodeexec.go.

  A program is a sequence of 64-bit little-endian words and of data blobs padded to a
  multiple of 8 bytes.  The encoder never writes the padding, so whatever the buffer
  held before stays there; `Starts` therefore says nothing about padding bytes.
 */
module ExecFormat {
  import opened Ir

  const INSTR_EOF: U64 := TWO64 - 1
  const INSTR_COPYIN: U64 := TWO64 - 2
  const INSTR_COPYOUT: U64 := TWO64 - 3

  const ARG_CONST: U64 := 0
  const ARG_RESULT: U64 := 1
  const ARG_DATA: U64 := 2
  const ARG_CSUM: U64 := 3

  const DATA_READABLE: U64 := 0x8000_0000_0000_0000
  const CSUM_INET: U64 := 0
  const NO_COPYOUT: U64 := TWO64 - 1

  datatype Chunk = Chunk(kind: U64, value: U64, size: U64)

  datatype ExecArg =
    | ExecConst(size: U64, format: U64, value: U64, bfOff: U64, bfLen: U64, pidStride: U64)
    | ExecResult(size: U64, format: U64, index: U64, divOp: U64, addOp: U64, default: U64)
    | ExecData(data: seq<Byte>, readable: bool)
    | ExecCsum(size: U64, chunks: seq<Chunk>)

  datatype Copyin = Copyin(addr: U64, arg: ExecArg)
  datatype Copyout = Copyout(index: U64, addr: U64, size: U64)

  datatype ExecCall = ExecCall(meta: U64, index: U64, args: seq<ExecArg>,
                               copyin: seq<Copyin>, copyout: seq<Copyout>)

  function CopyinArgs(cs: seq<Copyin>): seq<ExecArg> {
    if cs == [] then [] else [cs[0].arg] + CopyinArgs(cs[1..])
  }

  // ----- the encoder's output -----

  datatype Item = Word(v: U64) | Blob(data: seq<Byte>)

  /** The packed word of writeConstArg and writeArg. The source combines the parts with
      `|`; on parts that fit their bit ranges that is the sum (see OrIsSum). */
  function PackMeta(size: U64, format: U64, bfOff: U64, bfLen: U64, pidStride: U64): (r: U64)
    requires size < 0x100 && format < 0x100 && bfOff < 0x100 && bfLen < 0x100 && pidStride < 0x1_0000_0000
  {
    size + format * 0x100 + bfOff * 0x1_0000 + bfLen * 0x100_0000 + pidStride * 0x1_0000_0000
  }

  /** The `|` form used by the source equals the sum on in-range parts, and the masks and
      shifts of the reader recover each part. */
  lemma {:induction false} OrIsSum(size: bv64, format: bv64, off: bv64, len: bv64, stride: bv64)
    requires size < 0x100 && format < 0x100 && off < 0x100 && len < 0x100 && stride < 0x1_0000_0000
    ensures size | (format << 8) | (off << 16) | (len << 24) | (stride << 32)
         == size + (format << 8) + (off << 16) + (len << 24) + (stride << 32)
    ensures var meta := size | (format << 8) | (off << 16) | (len << 24) | (stride << 32);
            meta & 0xff == size && (meta >> 8) & 0xff == format && (meta >> 16) & 0xff == off
            && (meta >> 24) & 0xff == len && meta >> 32 == stride
  {
  }

  /** Chunks have 24 bytes, and a slice lies in 48 bits of address space. */
  const MAX_CHUNKS: nat := 0x1_0000_0000_0000 / 24

  /** Arguments whose fields fit the bits the format gives them. */
  predicate ArgFits(a: ExecArg) {
    match a
    case ExecConst(size, format, _, off, len, stride) =>
      size < 0x100 && format < 0x100 && off < 0x100 && len < 0x100 && stride < 0x1_0000_0000
    case ExecResult(size, format, index, _, _, _) =>
      size < 0x100 && format < 0x100 && index < TWO64 - 1
    case ExecData(data, _) => 0 < |data| < DATA_READABLE
    case ExecCsum(_, chunks) => |chunks| <= MAX_CHUNKS
  }

  function EncArg(a: ExecArg): seq<Item>
    requires ArgFits(a)
  {
    match a
    case ExecConst(size, format, value, off, len, stride) =>
      [Word(ARG_CONST), Word(PackMeta(size, format, off, len, stride)), Word(value)]
    case ExecResult(size, format, index, div, add, default) =>
      [Word(ARG_RESULT), Word(PackMeta(size, format, 0, 0, 0)), Word(index), Word(div), Word(add), Word(default)]
    case ExecData(data, readable) =>
      [Word(ARG_DATA), Word(|data| + if readable then DATA_READABLE else 0), Blob(data)]
    case ExecCsum(size, chunks) =>
      [Word(ARG_CSUM), Word(size), Word(CSUM_INET), Word(|chunks|)] + EncChunks(chunks)
  }

  function EncChunks(cs: seq<Chunk>): seq<Item> {
    if cs == [] then []
    else [Word(cs[0].kind), Word(cs[0].value), Word(cs[0].size)] + EncChunks(cs[1..])
  }

  predicate ArgsFit(args: seq<ExecArg>) {
    forall i :: 0 <= i < |args| ==> ArgFits(args[i])
  }

  predicate CallFits(nsys: nat, c: ExecCall) {
    && c.meta < nsys
    && |c.args| < TWO64
    && (forall i :: 0 <= i < |c.args| ==> ArgFits(c.args[i]) && (c.args[i].ExecConst? || c.args[i].ExecResult?))
    && (forall i :: 0 <= i < |c.copyin| ==> ArgFits(c.copyin[i].arg))
    && (forall i :: 0 <= i < |c.copyout| ==> c.copyout[i].index < TWO64 - 1)
  }

  /** Instruction numbers stay below the three special ones. */
  predicate CallsFit(nsys: nat, calls: seq<ExecCall>) {
    nsys <= INSTR_COPYOUT && forall i :: 0 <= i < |calls| ==> CallFits(nsys, calls[i])
  }

  function EncArgs(args: seq<ExecArg>): seq<Item>
    requires ArgsFit(args)
  {
    if args == [] then [] else EncArg(args[0]) + EncArgs(args[1..])
  }

  function EncCopyins(cs: seq<Copyin>): seq<Item>
    requires forall i :: 0 <= i < |cs| ==> ArgFits(cs[i].arg)
  {
    if cs == [] then []
    else [Word(INSTR_COPYIN), Word(cs[0].addr)] + EncArg(cs[0].arg) + EncCopyins(cs[1..])
  }

  function EncCopyouts(cs: seq<Copyout>): seq<Item> {
    if cs == [] then []
    else [Word(INSTR_COPYOUT), Word(cs[0].index), Word(cs[0].addr), Word(cs[0].size)] + EncCopyouts(cs[1..])
  }

  function EncCall(nsys: nat, c: ExecCall): seq<Item>
    requires nsys <= INSTR_COPYOUT && CallFits(nsys, c)
  {
    EncCopyins(c.copyin) + [Word(c.meta), Word(c.index), Word(|c.args|)] + EncArgs(c.args) + EncCopyouts(c.copyout)
  }

  function EncCalls(nsys: nat, calls: seq<ExecCall>): seq<Item>
    requires CallsFit(nsys, calls)
  {
    if calls == [] then [] else EncCall(nsys, calls[0]) + EncCalls(nsys, calls[1..])
  }

  /** The whole exec program: the calls and the terminator. */
  function EncProg(nsys: nat, calls: seq<ExecCall>): seq<Item>
    requires CallsFit(nsys, calls)
  {
    EncCalls(nsys, calls) + [Word(INSTR_EOF)]
  }

  // ----- bytes -----

  function Padded(n: nat): (r: nat)
    ensures n <= r < n + 8 && r % 8 == 0
  {
    (n + 7) / 8 * 8
  }

  function ItemLen(it: Item): nat {
    match it
    case Word(_) => 8
    case Blob(data) => Padded(|data|)
  }

  function Len(items: seq<Item>): nat {
    if items == [] then 0 else ItemLen(items[0]) + Len(items[1..])
  }

  function LeVal(b: seq<Byte>): nat {
    if b == [] then 0 else b[0] + 256 * LeVal(b[1..])
  }

  function LeBytes(v: nat, n: nat): (b: seq<Byte>)
    ensures |b| == n
  {
    if n == 0 then [] else [v % 256] + LeBytes(v / 256, n - 1)
  }

  function Pow256(n: nat): (r: nat)
    ensures r > 0
  {
    if n == 0 then 1 else 256 * Pow256(n - 1)
  }

  lemma {:induction false} LeRoundTrip(v: nat, n: nat)
    requires v < Pow256(n)
    ensures LeVal(LeBytes(v, n)) == v
  {
    if n > 0 {
      LeRoundTrip(v / 256, n - 1);
      assert LeBytes(v, n)[1..] == LeBytes(v / 256, n - 1);
    }
  }

  lemma {:induction false} LeValBound(b: seq<Byte>)
    ensures LeVal(b) < Pow256(|b|)
  {
    if b != [] { LeValBound(b[1..]); }
  }

  lemma {:induction false} Pow256Of8()
    ensures Pow256(8) == TWO64
  {
    assert Pow256(8) == 256 * (256 * (256 * (256 * Pow256(4))));
    assert Pow256(4) == 256 * (256 * (256 * (256 * Pow256(0))));
  }

  predicate ItemAt(bytes: seq<Byte>, it: Item)
    requires |bytes| >= ItemLen(it)
  {
    match it
    case Word(v) => LeVal(bytes[..8]) == v
    case Blob(data) => bytes[..|data|] == data
  }

  /** `bytes` starts with an encoding of `items`, any padding and any tail. */
  predicate Starts(bytes: seq<Byte>, items: seq<Item>) {
    items == [] ||
    (|bytes| >= ItemLen(items[0]) && ItemAt(bytes, items[0]) && Starts(bytes[ItemLen(items[0])..], items[1..]))
  }

  lemma {:induction false} StartsLen(bytes: seq<Byte>, items: seq<Item>)
    requires Starts(bytes, items)
    ensures Len(items) <= |bytes|
  {
    if items != [] { StartsLen(bytes[ItemLen(items[0])..], items[1..]); }
  }

  lemma {:induction false} LenAppend(xs: seq<Item>, ys: seq<Item>)
    ensures Len(xs + ys) == Len(xs) + Len(ys)
  {
    if xs == [] {
      assert xs + ys == ys;
    } else {
      LenAppend(xs[1..], ys);
      assert (xs + ys)[1..] == xs[1..] + ys;
    }
  }

  lemma {:induction false} StartsAppend(bytes: seq<Byte>, xs: seq<Item>, ys: seq<Item>)
    ensures Starts(bytes, xs + ys) <==> Starts(bytes, xs) && Len(xs) <= |bytes| && Starts(bytes[Len(xs)..], ys)
  {
    if xs == [] {
      assert xs + ys == ys && bytes[0..] == bytes;
    } else {
      assert (xs + ys)[1..] == xs[1..] + ys;
      var n := ItemLen(xs[0]);
      if |bytes| >= n {
        StartsAppend(bytes[n..], xs[1..], ys);
        if n + Len(xs[1..]) <= |bytes| {
          assert bytes[n..][Len(xs[1..])..] == bytes[Len(xs)..];
        }
      }
    }
  }

  // ----- the decoder -----

  /** HugeSlice stands for a panic: make of a slice that no 64-bit address space holds. */
  datatype Error = Overflow | BadSyscall | BadCallArg | BadArgType | BadCsumKind | VarsMismatch | HugeSlice

  datatype Result<+T> = Ok(value: T) | Err(error: Error)

  /** The call being assembled; `meta` is None while no call has been seen. */
  datatype Pending = Pending(meta: Option<U64>, index: U64, args: seq<ExecArg>,
                             copyin: seq<Copyin>, copyout: seq<Copyout>)

  const NO_CALL := Pending(None, 0, [], [], [])

  /** execDecoder; an error ends the run, so it is not part of the state. */
  datatype Dec = Dec(data: seq<Byte>, numVars: nat, vars: seq<U64>, call: Pending, calls: seq<ExecCall>)

  function Read(data: seq<Byte>): (r: Result<(U64, seq<Byte>)>)
    ensures r.Ok? ==> |r.value.1| == |data| - 8
  {
    if |data| < 8 then Err(Overflow)
    else
      LeValBound(data[..8]); Pow256Of8();
      Ok((LeVal(data[..8]), data[8..]))
  }

  /** The padded length is computed in 64 bits, as in readBlob. */
  function ReadBlob(data: seq<Byte>, size: U64): (r: Result<(seq<Byte>, seq<Byte>)>)
    requires size < DATA_READABLE
    ensures r.Ok? ==> |r.value.1| <= |data|
  {
    if |data| < Padded(size) then Err(Overflow) else Ok((data[..size], data[Padded(size)..]))
  }

  function ReadChunks(data: seq<Byte>, n: nat): (r: Result<(seq<Chunk>, seq<Byte>)>)
    ensures r.Ok? ==> |r.value.1| <= |data| && |r.value.0| == n
    decreases n
  {
    if n == 0 then Ok(([], data))
    else
      match Read(data)
      case Err(e) => Err(e)
      case Ok((kind, d1)) =>
        match Read(d1)
        case Err(e) => Err(e)
        case Ok((value, d2)) =>
          match Read(d2)
          case Err(e) => Err(e)
          case Ok((size, d3)) =>
            match ReadChunks(d3, n - 1)
            case Err(e) => Err(e)
            case Ok((cs, rest)) => Ok(([Chunk(kind, value, size)] + cs, rest))
  }

  /** `dec.vars` after a reference to variable `index` with the given default. */
  function NoteVar(vars: seq<U64>, index: nat, default: U64): (r: seq<U64>)
    ensures |r| == if |vars| <= index then index + 1 else |vars|
    ensures forall i :: 0 <= i < |r| ==> r[i] == if i == index then default else if i < |vars| then vars[i] else 0
  {
    (vars + if |vars| <= index then seq(index + 1 - |vars|, _ => 0) else [])[index := default]
  }

  function ReadArg(data: seq<Byte>, vars: seq<U64>): (r: Result<(ExecArg, seq<U64>, seq<Byte>)>)
    ensures r.Ok? ==> |r.value.2| < |data|
  {
    match Read(data)
    case Err(e) => Err(e)
    case Ok((typ, d)) =>
      if typ == ARG_CONST then ReadConst(d, vars)
      else if typ == ARG_RESULT then ReadResult(d, vars)
      else if typ == ARG_DATA then
        (match Read(d)
         case Err(e) => Err(e)
         case Ok((flags, d1)) =>
           match ReadBlob(d1, flags % DATA_READABLE)
           case Err(e) => Err(e)
           case Ok((blob, d2)) => Ok((ExecData(blob, flags >= DATA_READABLE), vars, d2)))
      else if typ == ARG_CSUM then ReadCsum(d, vars)
      else Err(BadArgType)
  }

  function ReadConst(d: seq<Byte>, vars: seq<U64>): (r: Result<(ExecArg, seq<U64>, seq<Byte>)>)
    ensures r.Ok? ==> |r.value.2| <= |d|
  {
    match Read(d)
    case Err(e) => Err(e)
    case Ok((meta, d1)) =>
      match Read(d1)
      case Err(e) => Err(e)
      case Ok((value, d2)) =>
        Ok((ExecConst(meta % 0x100, meta / 0x100 % 0x100, value, meta / 0x1_0000 % 0x100,
                      meta / 0x100_0000 % 0x100, meta / 0x1_0000_0000), vars, d2))
  }

  function ReadResult(d: seq<Byte>, vars: seq<U64>): (r: Result<(ExecArg, seq<U64>, seq<Byte>)>)
    ensures r.Ok? ==> |r.value.2| <= |d|
  {
    match Read(d)
    case Err(e) => Err(e)
    case Ok((meta, d1)) =>
      match Read(d1)
      case Err(e) => Err(e)
      case Ok((index, d2)) =>
        match Read(d2)
        case Err(e) => Err(e)
        case Ok((div, d3)) =>
          match Read(d3)
          case Err(e) => Err(e)
          case Ok((add, d4)) =>
            match Read(d4)
            case Err(e) => Err(e)
            case Ok((default, d5)) =>
              Ok((ExecResult(meta % 0x100, meta / 0x100 % 0x100, index, div, add, default),
                  NoteVar(vars, index, default), d5))
  }

  function ReadCsum(d: seq<Byte>, vars: seq<U64>): (r: Result<(ExecArg, seq<U64>, seq<Byte>)>)
    ensures r.Ok? ==> |r.value.2| <= |d|
  {
    match Read(d)
    case Err(e) => Err(e)
    case Ok((size, d1)) =>
      match Read(d1)
      case Err(e) => Err(e)
      case Ok((kind, d2)) =>
        if kind != CSUM_INET then Err(BadCsumKind)
        else
          match Read(d2)
          case Err(e) => Err(e)
          case Ok((n, d3)) =>
            if n > MAX_CHUNKS then Err(HugeSlice)
            else
              match ReadChunks(d3, n)
              case Err(e) => Err(e)
              case Ok((cs, d4)) => Ok((ExecCsum(size, cs), vars, d4))
  }

  function ReadArgs(data: seq<Byte>, vars: seq<U64>, n: nat): (r: Result<(seq<ExecArg>, seq<U64>, seq<Byte>)>)
    ensures r.Ok? ==> |r.value.2| <= |data|
    decreases n
  {
    if n == 0 then Ok(([], vars, data))
    else
      match ReadArg(data, vars)
      case Err(e) => Err(e)
      case Ok((a, vars1, d1)) =>
        if !a.ExecConst? && !a.ExecResult? then Err(BadCallArg)
        else
          match ReadArgs(d1, vars1, n - 1)
          case Err(e) => Err(e)
          case Ok((more, vars2, d2)) => Ok(([a] + more, vars2, d2))
  }

  function Max(a: nat, b: nat): nat { if a < b then b else a }

  /** One more than the largest index assigned by a list of copyouts, from `n` up. */
  function NumVarsOut(n: nat, cs: seq<Copyout>): nat
    decreases cs
  {
    if cs == [] then n else NumVarsOut(Max(n, (cs[0].index + 1) % TWO64), cs[1..])
  }

  function NumVarsCall(n: nat, index: U64, cs: seq<Copyout>): nat {
    NumVarsOut(if index != NO_COPYOUT then Max(n, index + 1) else n, cs)
  }

  /** commitCall */
  function Commit(d: Dec): Dec {
    if d.call.meta.None? then d
    else
      var c := d.call;
      d.(numVars := NumVarsCall(d.numVars, c.index, c.copyout),
         calls := d.calls + [ExecCall(c.meta.value, c.index, c.args, c.copyin, c.copyout)],
         call := NO_CALL)
  }

  /** parse: one instruction, then the rest. */
  function Parse(nsys: nat, d: Dec): Result<Dec>
    decreases |d.data|
  {
    match Read(d.data)
    case Err(e) => Err(e)
    case Ok((instr, d1)) =>
      if instr == INSTR_EOF then Ok(Commit(d.(data := d1)))
      else
        match Step(nsys, d, instr, d1)
        case Err(e) => Err(e)
        case Ok(next) => Parse(nsys, next)
  }

  function Step(nsys: nat, d: Dec, instr: U64, d1: seq<Byte>): (r: Result<Dec>)
    ensures r.Ok? ==> |r.value.data| <= |d1|
  {
    if instr == INSTR_COPYIN then
      var c := Commit(d);
      match Read(d1)
      case Err(e) => Err(e)
      case Ok((addr, d2)) =>
        match ReadArg(d2, c.vars)
        case Err(e) => Err(e)
        case Ok((arg, vars, d3)) =>
          Ok(c.(data := d3, vars := vars, call := c.call.(copyin := c.call.copyin + [Copyin(addr, arg)])))
    else if instr == INSTR_COPYOUT then
      match Read(d1)
      case Err(e) => Err(e)
      case Ok((index, d2)) =>
        match Read(d2)
        case Err(e) => Err(e)
        case Ok((addr, d3)) =>
          match Read(d3)
          case Err(e) => Err(e)
          case Ok((size, d4)) =>
            Ok(d.(data := d4, call := d.call.(copyout := d.call.copyout + [Copyout(index, addr, size)])))
    else
      var c := Commit(d);
      if instr >= nsys then Err(BadSyscall)
      else
        match Read(d1)
        case Err(e) => Err(e)
        case Ok((index, d2)) =>
          match Read(d2)
          case Err(e) => Err(e)
          case Ok((n, d3)) =>
            match ReadArgs(d3, c.vars, n)
            case Err(e) => Err(e)
            case Ok((args, vars, d4)) =>
              Ok(c.(data := d4, vars := vars,
                    call := c.call.(meta := Some(instr), index := index, args := c.call.args + args)))
  }

  /** DeserializeExec */
  function DeserializeExec(nsys: nat, data: seq<Byte>): Result<(seq<ExecCall>, seq<U64>)> {
    match Parse(nsys, Dec(data, 0, [], NO_CALL, []))
    case Err(e) => Err(e)
    case Ok(d) => if |d.vars| != d.numVars then Err(VarsMismatch) else Ok((d.calls, d.vars))
  }
}
