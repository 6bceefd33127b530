/**
  The text form of programs: serialize (prog/encoding.go:35-197, 715-722).
 */
module TextPrint {
  import opened Ir
  import opened Defaults
  import opened TextLex

  const ADDR_BASE: U64 := 0x7f00_0000_0000

  datatype Env = Env(tgt: Target, used: set<Loc>, verbose: bool)

  /** The serializer's variables; `panicked` records the "no result" panic. */
  datatype SerState = SerState(vars: map<Loc, nat>, next: nat, panicked: bool)

  datatype Printed = Printed(text: string, st: SerState)

  /** allocVarID. */
  function AllocVar(st: SerState, l: Loc): SerState {
    SerState(st.vars[l := st.next], st.next + 1, st.panicked)
  }

  /** serializeAddr, with the ampersand. */
  function PrintAddr(address: U64, vmaSize: U64): string {
    "&(" + Hex((ADDR_BASE + address) % TWO64) + (if vmaSize != 0 then "/" + Hex(vmaSize) else "") + ")"
  }

  /** Drops trailing zeros but one. */
  function StripZeros(data: seq<Byte>): (r: seq<Byte>)
    ensures |r| <= |data| && r + Zeros(|data| - |r|) == data
  {
    if |data| >= 2 && data[|data| - 1] == 0 && data[|data| - 2] == 0 then
      var r := StripZeros(data[..|data| - 1]);
      assert data == data[..|data| - 1] + [0];
      assert Zeros(|data| - |r|) == Zeros(|data| - 1 - |r|) + [0];
      r
    else assert data + Zeros(0) == data; data
  }

  /** The part of the data that is printed: variable-size data is cut only when that saves
      more than eight bytes. */
  function ShownData(t: Type, data: seq<Byte>): (r: seq<Byte>)
    ensures |r| <= |data| && r + Zeros(|data| - |r|) == data
  {
    var r := StripZeros(data);
    if t.com.varlen && |r| + 8 >= |data| then assert data + Zeros(0) == data; data else r
  }

  function TrailingZeros(data: seq<Byte>): nat {
    if data == [] || data[|data| - 1] != 0 then 0 else 1 + TrailingZeros(data[..|data| - 1])
  }

  /** All trailing zeros but one are dropped. */
  lemma {:induction false} StripsAll(data: seq<Byte>)
    ensures |StripZeros(data)| == |data| - if TrailingZeros(data) > 1 then TrailingZeros(data) - 1 else 0
  {
    if |data| >= 2 && data[|data| - 1] == 0 && data[|data| - 2] == 0 {
      StripsAll(data[..|data| - 1]);
    } else if data != [] && data[|data| - 1] == 0 {
      var less := data[..|data| - 1];
      assert TrailingZeros(less) == 0;
    }
  }

  /** Data of fixed size is cut when it ends with two zeros, and other data when more than eight
      bytes are saved; then all zeros but one are dropped. */
  lemma {:induction false} CutWhen(t: Type, data: seq<Byte>)
    ensures |ShownData(t, data)| ==
            |data| - if TrailingZeros(data) > (if t.com.varlen then 9 else 1) then TrailingZeros(data) - 1 else 0
  {
    StripsAll(data);
  }

  predicate ReadableType(t: Type) {
    t.BufferT? && (t.kind == StringBuf || t.kind == FilenameBuf)
  }

  function PrintDataArg(a: Arg): string
    requires a.DataArg?
  {
    if a.typ.com.dir == DirOut then "\"\"/" + Dec(Size(a))
    else
      var shown := ShownData(a.typ, a.data);
      PrintData(shown, ReadableType(a.typ)) +
      (if a.typ.com.varlen && |shown| != |a.data| then "/" + Dec(|a.data|) else "")
  }

  /** A reference to the variable of `l`, with its operations. */
  function PrintRef(st: SerState, l: Loc, opDiv: U64, opAdd: U64): string {
    (if l in st.vars then Name(st.vars[l]) else "r") +
    (if opDiv != 0 then "/" + Dec(opDiv) else "") +
    (if opAdd != 0 then "+" + Dec(opAdd) else "")
  }

  function PrintResult(used: set<Loc>, st: SerState, a: Arg, c: nat, k: nat): Printed
    requires a.ResultArg?
  {
    var named := Loc(c, k) in used;
    var st1 := if named then AllocVar(st, Loc(c, k)) else st;
    var head := if named then "<" + Name(st.next) + "=>" else "";
    if a.ref.None? then Printed(head + Hex(a.val), st1)
    else
      Printed(head + PrintRef(st1, a.ref.value, a.opDiv, a.opAdd),
              if a.ref.value in st1.vars then st1 else st1.(panicked := true))
  }

  /** How many members are printed: trailing defaults are left out where the type tells how
      many members there are. */
  function Shown(env: Env, t: Type, inner: seq<Arg>, c: nat, k: nat): (n: nat)
    ensures n <= |inner|
  {
    if !env.verbose && FixedInner(t) then Trim(env.used, inner, c, k) else |inner|
  }

  function Trim(used: set<Loc>, args: seq<Arg>, c: nat, k: nat): (n: nat)
    ensures n <= |args|
  {
    if args == [] then 0
    else
      var n := Trim(used, args[1..], c, k + NumResults(args[0]));
      if n > 0 then n + 1 else if IsDefault(used, c, args[0], k) then 0 else 1
  }

  /** A part introduced by `=`, unless it is left out. */
  function Attach(head: string, st: SerState, elide: bool, part: Printed): Printed {
    if elide then Printed(head, st) else Printed(head + "=" + part.text, part.st)
  }

  function PrintArg(env: Env, st: SerState, a: Arg, c: nat, k: nat): Printed
    decreases a
  {
    match a
    case ConstArg(_, val) => Printed(Hex(val), st)
    case PointerArg(_, address, vmaSize, res) =>
      if IsSpecial(a) then Printed(Hex(address), st)
      else if res.None? then Printed(PrintAddr(address, vmaSize) + "=nil", st)
      else Attach(PrintAddr(address, vmaSize), st, !env.verbose && IsDefault(env.used, c, res.value, k),
                  PrintArg(env, st, res.value, c, k))
    case DataArg(_, _, _) => Printed(PrintDataArg(a), st)
    case GroupArg(t, inner) =>
      var body := PrintItems(env, st, inner, Shown(env, t, inner, c, k), false, c, k);
      if t.StructT? then Printed("{" + body.text + "}", body.st) else Printed("[" + body.text + "]", body.st)
    case UnionArg(_, option) =>
      Attach("@" + option.typ.com.field, st, !env.verbose && IsDefault(env.used, c, option, k),
             PrintArg(env, st, option, c, k))
    case ResultArg(_, _, _, _, _) => PrintResult(env.used, st, a, c, k)
  }

  /** The first `n` members; `sep` says that an earlier one was passed. */
  function PrintItems(env: Env, st: SerState, args: seq<Arg>, n: nat, sep: bool, c: nat, k: nat): Printed
    requires n <= |args|
    decreases args
  {
    if n == 0 then Printed("", st)
    else if IsPad(args[0].typ) then PrintItems(env, st, args[1..], n - 1, true, c, k + NumResults(args[0]))
    else
      var one := PrintArg(env, st, args[0], c, k);
      var more := PrintItems(env, one.st, args[1..], n - 1, true, c, k + NumResults(args[0]));
      Printed((if sep then ", " else "") + (one.text + more.text), more.st)
  }

  /** One line, without the line feed. */
  function PrintCall(env: Env, st: SerState, call: Call, c: nat): Printed {
    var named := call.ret.Some? && Loc(c, 0) in env.used;
    var st1 := if named then AllocVar(st, Loc(c, 0)) else st;
    var head := if named then Name(st.next) + " = " else "";
    var args := PrintItems(env, st1, call.args, |call.args|, false, c, 1);
    Printed(head + (call.meta.name + ("(" + (args.text + ")"))), args.st)
  }

  function PrintCalls(env: Env, st: SerState, p: Program, c: nat): Printed
    requires c <= |p|
    decreases |p| - c
  {
    if c == |p| then Printed("", st)
    else
      var one := PrintCall(env, st, p[c], c);
      var more := PrintCalls(env, one.st, p, c + 1);
      Printed(one.text + ("\n" + more.text), more.st)
  }

  /** Serialize and SerializeVerbose; None is the "no result" panic. */
  function Serialize(tgt: Target, p: Program, verbose: bool): Option<string> {
    var r := PrintCalls(Env(tgt, RefsProg(p), verbose), SerState(map[], 0, false), p, 0);
    if r.st.panicked then None else Some(r.text)
  }
}
