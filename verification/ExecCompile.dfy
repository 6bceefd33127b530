/**
  SerializeForExec at the level of exec calls (prog/encodingexec.go): one pass over the
  program that hands out copyout indices while it emits the instructions that use them.

  `StaticProg` is the reference: it knows the index of every result in advance, namely
  its rank among the used results in program order.  CopyoutLaws.CompileIsStatic says
  exactly when the one pass emits that.
 */
module ExecCompile {
  import opened Ir
  import opened ExecFormat

  const PROC_DEFAULT: U64 := TWO64 - 1

  /** argInfo */
  datatype Info = Info(addr: U64, idx: nat, ret: bool)
  type Infos = map<Loc, Info>

  // ----- one argument -----

  /** ConstArg.Value: the value and the pid stride. */
  function ConstValue(a: Arg): Option<(U64, U64)>
    requires a.ConstArg?
  {
    match a.typ
    case IntT(_, _) => Some((a.val, 0))
    case ConstT(_, _, _, _) => Some((a.val, 0))
    case FlagsT(_, _) => Some((a.val, 0))
    case LenT(_, _, _, _, _) => Some((a.val, 0))
    case ResourceT(_, _, _) => Some((a.val, 0))
    case CsumT(_, _, _, _, _) => Some((0, 0))
    case ProcT(_, _, start, perProc) =>
      if a.val == PROC_DEFAULT then Some((0, 0)) else Some(((start + a.val) % TWO64, perProc))
    case _ => None
  }

  function BfOff(t: Type): U64 { if HasBits(t) then t.bits.off else 0 }
  function BfLen(t: Type): U64 { if HasBits(t) then t.bits.len else 0 }

  /** writeArg; None stands for a panic. */
  function WriteArg(tgt: Target, infos: Infos, a: Arg): Option<ExecArg> {
    match a
    case ConstArg(t, _) =>
      var v := ConstValue(a);
      if v.None? then None
      else Some(ExecConst(UnitSize(t), FormatCode(TypeFormat(t)), v.value.0, BfOff(t), BfLen(t), v.value.1))
    case ResultArg(t, ref, div, add, val) =>
      if ref.None? then Some(ExecConst(t.com.size, FormatCode(TypeFormat(t)), val, 0, 0, 0))
      else if ref.value !in infos || !t.ResourceT? then None
      else Some(ExecResult(t.com.size, FormatCode(TypeFormat(t)), infos[ref.value].idx % TWO64, div, add, t.default))
    case PointerArg(t, _, _, _) =>
      var addr := PhysicalAddr(tgt, a);
      if addr.None? then None else Some(ExecConst(t.com.size, 0, addr.value, 0, 0, 0))
    case DataArg(t, data, _) =>
      if !t.BufferT? || t.com.dir == DirOut then None
      else Some(ExecData(data, t.kind == StringBuf || t.kind == FilenameBuf))
    case UnionArg(_, option) => WriteArg(tgt, infos, option)
    case GroupArg(_, _) => None
  }

  /** Address of an argument at `off` from `base`. */
  function AddrAt(base: U64, off: nat, t: Type): U64 {
    (base + off - UnitOffset(t)) % TWO64
  }

  /** Arguments behind a pointer that writeCopyin emits no copyin for. */
  predicate NoCopyin(a: Arg) {
    a.GroupArg? || a.UnionArg? || a.typ.com.dir == DirOut || IsPad(a.typ) || (Size(a) == 0 && !IsBitfield(a.typ))
  }

  /** The copyin of the argument itself, if any. */
  function OwnCopyin(tgt: Target, infos: Infos, a: Arg, base: Option<U64>, off: nat): Option<seq<Copyin>> {
    if base.None? || NoCopyin(a) then Some([])
    else
      var x := WriteArg(tgt, infos, a);
      if x.None? then None else Some([Copyin(AddrAt(base.value, off, a.typ), x.value)])
  }

  /** Where the pointee of a pointer lies, relative to what: base and offset of its copyins. */
  function PointeeBase(tgt: Target, a: Arg): (r: U64)
    requires a.PointerArg? && a.res.Some?
  {
    (tgt.dataOffset + a.address) % TWO64
  }

  // ----- the pass of the source -----

  /** Emitted copyins and the infos after them; None stands for a panic. */
  type Emitted = Option<(seq<Copyin>, Infos)>

  function Then(one: Emitted, more: Emitted): Emitted {
    if one.None? || more.None? then None else Some((one.value.0 + more.value.0, more.value.1))
  }

  function Join<T>(one: Option<seq<T>>, more: Option<seq<T>>): Option<seq<T>> {
    if one.None? || more.None? then None else Some(one.value + more.value)
  }

  /** writeCopyin below one argument; `k` is the ordinal of the next result argument. */
  function Copyins(tgt: Target, used: set<Loc>, c: nat, a: Arg, base: Option<U64>, off: nat, k: nat, infos: Infos)
    : Emitted
    decreases a, 0
  {
    var infos1 := if base.Some? && a.ResultArg? && Loc(c, k) in used
                  then infos[Loc(c, k) := Info(AddrAt(base.value, off, a.typ), 0, false)] else infos;
    var own := OwnCopyin(tgt, infos1, a, base, off);
    var rest := match a
      case GroupArg(_, inner) => CopyinsSeq(tgt, used, c, inner, base, off, k, infos1)
      case PointerArg(_, _, _, res) =>
        if res.Some? then Copyins(tgt, used, c, res.value, Some(PointeeBase(tgt, a)), 0, k, infos1)
            else Some(([], infos1))
      case UnionArg(_, option) => Copyins(tgt, used, c, option, base, off, k, infos1)
      case _ => Some(([], infos1));
    Then(if own.None? then None else Some((own.value, infos1)), rest)
  }

  function CopyinsSeq(tgt: Target, used: set<Loc>, c: nat, args: seq<Arg>, base: Option<U64>, off: nat, k: nat,
      infos: Infos)
    : Emitted
    decreases args, 1
  {
    if args == [] then Some(([], infos))
    else
      var one := Copyins(tgt, used, c, args[0], base, off, k, infos);
      if one.None? then None
      else Then(one, CopyinsSeq(tgt, used, c, args[1..], base, off + Size(args[0]), k + NumResults(args[0]),
          one.value.1))
  }

  /** The top-level arguments: each has its own context, without a base. */
  function CopyinsTop(tgt: Target, used: set<Loc>, c: nat, args: seq<Arg>, k: nat, infos: Infos)
    : Emitted
    decreases args
  {
    if args == [] then Some(([], infos))
    else
      var one := Copyins(tgt, used, c, args[0], None, 0, k, infos);
      if one.None? then None
      else Then(one, CopyinsTop(tgt, used, c, args[1..], k + NumResults(args[0]), one.value.1))
  }

  /** writeCopyout below one argument: the instructions, the updated infos and copyoutSeq. */
  function Copyouts(used: set<Loc>, c: nat, a: Arg, k: nat, infos: Infos, n: nat): (seq<Copyout>, Infos, nat)
    decreases a, 0
  {
    match a
    case ResultArg(t, _, _, _, _) =>
      var l := Loc(c, k);
      if l !in used then ([], infos, n)
      else
        var info := if l in infos then infos[l] else Info(0, 0, false);
        if info.ret then ([], infos, n)
        else ([Copyout(n % TWO64, info.addr, t.com.size)], infos[l := info.(idx := n)], n + 1)
    case GroupArg(_, inner) => CopyoutsSeq(used, c, inner, k, infos, n)
    case PointerArg(_, _, _, res) => if res.Some? then Copyouts(used, c, res.value, k, infos, n) else ([], infos, n)
    case UnionArg(_, option) => Copyouts(used, c, option, k, infos, n)
    case _ => ([], infos, n)
  }

  function CopyoutsSeq(used: set<Loc>, c: nat, args: seq<Arg>, k: nat, infos: Infos, n: nat): (seq<Copyout>, Infos, nat)
    decreases args, 1
  {
    if args == [] then ([], infos, n)
    else
      var one := Copyouts(used, c, args[0], k, infos, n);
      var more := CopyoutsSeq(used, c, args[1..], k + NumResults(args[0]), one.1, one.2);
      (one.0 + more.0, more.1, more.2)
  }

  function WriteArgs(tgt: Target, infos: Infos, args: seq<Arg>): Option<seq<ExecArg>> {
    if args == [] then Some([])
    else
      var one, more := WriteArg(tgt, infos, args[0]), WriteArgs(tgt, infos, args[1..]);
      if one.None? || more.None? then None else Some([one.value] + more.value)
  }

  /** serializeCall; `csums` are the checksum copyins of the call, emitted after the others. */
  function CompileCall(tgt: Target, used: set<Loc>, c: nat, call: Call, csums: seq<Copyin>, infos: Infos, n: nat)
    : Option<(ExecCall, Infos, nat)>
  {
    var ins := CopyinsTop(tgt, used, c, call.args, 1, infos);
    if ins.None? then None else FinishCall(tgt, used, c, call, ins.value.0 + csums, ins.value.1, n)
  }

  /** The call itself and its copyouts. */
  function FinishCall(tgt: Target, used: set<Loc>, c: nat, call: Call, ins: seq<Copyin>, infos1: Infos, n: nat)
    : Option<(ExecCall, Infos, nat)>
  {
    var ret := call.ret.Some? && Loc(c, 0) in used;
    if ret && Loc(c, 0) in infos1 then None
    else
      var infos2 := if ret then infos1[Loc(c, 0) := Info(0, n, true)] else infos1;
      var args := WriteArgs(tgt, infos2, call.args);
      if args.None? then None
      else
        var outs := CopyoutsSeq(used, c, call.args, 1, infos2, if ret then n + 1 else n);
        Some((ExecCall(call.meta.id % TWO64, if ret then n % TWO64 else NO_COPYOUT, args.value, ins, outs.0),
              outs.1, outs.2))
  }

  function Prepend(one: Option<ExecCall>, more: Option<seq<ExecCall>>): Option<seq<ExecCall>> {
    if one.None? || more.None? then None else Some([one.value] + more.value)
  }

  /** The loop over calls: `step(c, s)` emits call `c` in state `s` and gives the next state. */
  function RunFrom<S>(step: (nat, S) -> Option<(ExecCall, S)>, c: nat, n: nat, s: S): Option<seq<ExecCall>>
    requires c <= n
    decreases n - c
  {
    if c == n then Some([])
    else
      var one := step(c, s);
      if one.None? then None else Prepend(Some(one.value.0), RunFrom(step, c + 1, n, one.value.1))
  }

  /** execContext between calls. */
  datatype State = State(infos: Infos, copyoutSeq: nat)

  function CompileStep(tgt: Target, used: set<Loc>, p: Program, csums: seq<seq<Copyin>>): (nat,
      State) -> Option<(ExecCall, State)>
    requires |csums| == |p|
  {
    (c: nat, s: State) =>
      if c >= |p| then None
      else
        var r := CompileCall(tgt, used, c, p[c], csums[c], s.infos, s.copyoutSeq);
        if r.None? then None else Some((r.value.0, State(r.value.1, r.value.2)))
  }

  function CompileProg(tgt: Target, p: Program, csums: seq<seq<Copyin>>): Option<seq<ExecCall>>
    requires |csums| == |p|
  {
    RunFrom(CompileStep(tgt, RefsProg(p), p, csums), 0, |p|, State(map[], 0))
  }

  // ----- the reference -----

  predicate Less(a: Loc, b: Loc) {
    a.call < b.call || (a.call == b.call && a.idx < b.idx)
  }

  /** Number of used results before `l` in program order. */
  function Rank(used: set<Loc>, l: Loc): nat {
    |set x | x in used && Less(x, l)|
  }

  function StaticInfos(used: set<Loc>): Infos {
    map l | l in used :: Info(0, Rank(used, l), false)
  }

  /** The copyins with all references looked up in the same infos. */
  function StaticCopyins(tgt: Target, infos: Infos, a: Arg, base: Option<U64>, off: nat): Option<seq<Copyin>>
    decreases a, 0
  {
    var rest := match a
      case GroupArg(_, inner) => StaticCopyinsSeq(tgt, infos, inner, base, off)
      case PointerArg(_, _, _, res) =>
        if res.Some? then StaticCopyins(tgt, infos, res.value, Some(PointeeBase(tgt, a)), 0) else Some([])
      case UnionArg(_, option) => StaticCopyins(tgt, infos, option, base, off)
      case _ => Some([]);
    Join(OwnCopyin(tgt, infos, a, base, off), rest)
  }

  function StaticCopyinsSeq(tgt: Target, infos: Infos, args: seq<Arg>, base: Option<U64>, off: nat): Option<seq<Copyin>>
    decreases args, 1
  {
    if args == [] then Some([])
    else Join(StaticCopyins(tgt, infos, args[0], base, off),
              StaticCopyinsSeq(tgt, infos, args[1..], base, off + Size(args[0])))
  }

  function StaticCopyinsTop(tgt: Target, infos: Infos, args: seq<Arg>): Option<seq<Copyin>>
    decreases args
  {
    if args == [] then Some([])
    else Join(StaticCopyins(tgt, infos, args[0], None, 0), StaticCopyinsTop(tgt, infos, args[1..]))
  }

  /** A result that is read back: where it lies (0 outside memory) and its rank. */
  function StaticCopyouts(tgt: Target, used: set<Loc>, c: nat, a: Arg, base: Option<U64>, off: nat,
      k: nat): seq<Copyout>
    decreases a, 0
  {
    match a
    case ResultArg(t, _, _, _, _) =>
      if Loc(c, k) !in used then []
      else [Copyout(Rank(used, Loc(c, k)) % TWO64, if base.Some? then AddrAt(base.value, off, t) else 0, t.com.size)]
    case GroupArg(_, inner) => StaticCopyoutsSeq(tgt, used, c, inner, base, off, k)
    case PointerArg(_, _, _, res) =>
      if res.Some? then StaticCopyouts(tgt, used, c, res.value, Some(PointeeBase(tgt, a)), 0, k) else []
    case UnionArg(_, option) => StaticCopyouts(tgt, used, c, option, base, off, k)
    case _ => []
  }

  function StaticCopyoutsSeq(tgt: Target, used: set<Loc>, c: nat, args: seq<Arg>, base: Option<U64>, off: nat,
      k: nat): seq<Copyout>
    decreases args, 1
  {
    if args == [] then []
    else StaticCopyouts(tgt, used, c, args[0], base, off, k)
         + StaticCopyoutsSeq(tgt, used, c, args[1..], base, off + Size(args[0]), k + NumResults(args[0]))
  }

  function StaticCopyoutsTop(tgt: Target, used: set<Loc>, c: nat, args: seq<Arg>, k: nat): seq<Copyout>
    decreases args
  {
    if args == [] then []
    else StaticCopyouts(tgt, used, c, args[0], None, 0, k)
         + StaticCopyoutsTop(tgt, used, c, args[1..], k + NumResults(args[0]))
  }

  function StaticCall(tgt: Target, used: set<Loc>, infos: Infos, c: nat, call: Call,
      csums: seq<Copyin>): Option<ExecCall> {
    var ins := StaticCopyinsTop(tgt, infos, call.args);
    if ins.None? then None else StaticFinish(tgt, used, infos, c, call, ins.value + csums)
  }

  function StaticFinish(tgt: Target, used: set<Loc>, infos: Infos, c: nat, call: Call,
      ins: seq<Copyin>): Option<ExecCall> {
    var args := WriteArgs(tgt, infos, call.args);
    if args.None? then None
    else Some(ExecCall(call.meta.id % TWO64,
                       if call.ret.Some? && Loc(c, 0) in used then Rank(used, Loc(c, 0)) % TWO64 else NO_COPYOUT,
                       args.value, ins, StaticCopyoutsTop(tgt, used, c, call.args, 1)))
  }

  /** All calls, each compiled on its own. */
  function Collect(one: nat -> Option<ExecCall>, c: nat, n: nat): Option<seq<ExecCall>>
    requires c <= n
    decreases n - c
  {
    if c == n then Some([]) else Prepend(one(c), Collect(one, c + 1, n))
  }

  function StaticOne(tgt: Target, used: set<Loc>, p: Program, csums: seq<seq<Copyin>>): nat -> Option<ExecCall>
    requires |csums| == |p|
  {
    (c: nat) => if c >= |p| then None else StaticCall(tgt, used, StaticInfos(used), c, p[c], csums[c])
  }

  function StaticProg(tgt: Target, p: Program, csums: seq<seq<Copyin>>): Option<seq<ExecCall>>
    requires |csums| == |p|
  {
    Collect(StaticOne(tgt, RefsProg(p), p, csums), 0, |p|)
  }
}
