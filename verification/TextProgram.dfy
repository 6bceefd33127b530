/**
  The round trip of whole programs: lines, calls and the variables that lead from call to call.
 */
module TextProgram {
  import opened Ir
  import opened Defaults
  import opened TextLex
  import opened TextPrint
  import opened TextParse
  import opened TextRoundTrip

  predicate CanonicalCall(env: Env, call: Call, c: nat)
    requires env.tgt.pageSize > 0
  {
    CanonicalSeq(env, c, call.args, |call.args|, 1)
  }

  /** The text says everything about the program. */
  predicate CanonicalProg(tgt: Target, p: Program, verbose: bool)
    requires tgt.pageSize > 0
  {
    forall c :: 0 <= c < |p| ==> CanonicalCall(Env(tgt, RefsProg(p), verbose), p[c], c)
  }

  /** No line is too long for the scanner. */
  predicate LinesFit(text: string) {
    forall i :: 0 <= i < |Lines(text)| ==> |Lines(text)[i]| < MAX_LINE
  }

  // ----- the serializer never misses a variable -----

  ghost predicate Fine(used: set<Loc>, st: SerState, c: nat, k: nat) {
    !st.panicked && Known(used, st, c, k) && k >= 1
  }

  lemma {:induction false} FineSkips(used: set<Loc>, st: SerState, c: nat, k: nat, n: nat)
    requires Fine(used, st, c, k) && forall j :: k <= j < k + n ==> Loc(c, j) !in used
    ensures Fine(used, st, c, k + n)
  {
    forall l | l in used && Before(l, c, k + n) ensures l in st.vars {
      assert l == Loc(l.call, l.idx);
    }
  }

  lemma {:induction false} FineOverDefault(used: set<Loc>, st: SerState, c: nat, k: nat, a: Arg)
    requires Fine(used, st, c, k) && IsDefault(used, c, a, k)
    ensures Fine(used, st, c, k + NumResults(a))
  {
    forall j | k <= j < k + NumResults(a) ensures Loc(c, j) !in used { DefaultUnused(used, c, a, k, j); }
    FineSkips(used, st, c, k, NumResults(a));
  }

  lemma {:induction false} FineOverDefaults(used: set<Loc>, st: SerState, c: nat, k: nat, args: seq<Arg>)
    requires Fine(used, st, c, k) && AllDefault(used, c, args, k)
    ensures Fine(used, st, c, k + NumResultsSeq(args))
  {
    forall j | k <= j < k + NumResultsSeq(args) ensures Loc(c, j) !in used { DefaultsUnused(used, c, args, k, j); }
    FineSkips(used, st, c, k, NumResultsSeq(args));
  }

  lemma {:induction false} ArgFine(env: Env, st: SerState, a: Arg, t: Type, c: nat, k: nat)
    requires Fine(env.used, st, c, k) && ValidArg(env.tgt, a, t) && LinksOk(a, c, k) && Refs(a) <= env.used
    ensures Fine(env.used, PrintArg(env, st, a, c, k).st, c, k + NumResults(a))
    decreases a
  {
    match a
    case PointerArg(_, _, _, res) =>
      if res.Some? {
        if Elided(env, c, res.value, k) { FineOverDefault(env.used, st, c, k, res.value); }
        else { ArgFine(env, st, res.value, env.tgt.pointees[t.pointee], c, k); }
      }
    case GroupArg(_, inner) =>
      TrimTail(env.used, inner, c, k);
      FullTail(env.used, inner, c, k);
      ItemsFine(env, st, inner, Shown(env, t, inner, c, k), false, ShapeOf(t), c, k);
    case UnionArg(_, option) =>
      if Elided(env, c, option, k) { FineOverDefault(env.used, st, c, k, option); }
      else { ArgFine(env, st, option, FindOption(t.options, option.typ.com.field).value, c, k); }
    case ResultArg(_, _, _, _, _) => ResultFine(env.used, st, a, c, k);
    case _ =>
  }

  lemma {:induction false} ResultFine(used: set<Loc>, st: SerState, a: Arg, c: nat, k: nat)
    requires Fine(used, st, c, k) && a.ResultArg? && LinksOk(a, c, k) && Refs(a) <= used
    ensures Fine(used, PrintResult(used, st, a, c, k).st, c, k + 1)
  {
    if a.ref.Some? { assert a.ref.value in Refs(a); }
  }

  /** What a list of members gives for its head and for the rest. */
  lemma {:induction false} SeqParts(tgt: Target, used: set<Loc>, args: seq<Arg>, sh: Shape, c: nat, k: nat)
    requires args != [] && ValidSeq(tgt, args, sh) && LinksOkSeq(args, c, k) && RefsSeq(args) <= used
    ensures Head(sh).Some? && ValidArg(tgt, args[0], Head(sh).value) && LinksOk(args[0], c, k) && Refs(args[0]) <= used
    ensures ValidSeq(tgt, args[1..], Tail(sh)) && LinksOkSeq(args[1..], c, k + NumResults(args[0])) &&
        RefsSeq(args[1..]) <= used
    ensures args[0].typ == Head(sh).value
  {
  }

  lemma {:induction false} ItemsStep(env: Env, st: SerState, args: seq<Arg>, n: nat, sep: bool, c: nat, k: nat)
    requires 0 < n <= |args|
    ensures PrintItems(env, st, args, n, sep, c, k).st ==
            PrintItems(env, NextState(env, st, args[0], c, k), args[1..], n - 1, true, c, k + NumResults(args[0])).st
  {
  }

  lemma {:induction false} ItemsFine(env: Env, st: SerState, args: seq<Arg>, n: nat, sep: bool, sh: Shape, c: nat,
      k: nat)
    requires Fine(env.used, st, c, k) && ValidSeq(env.tgt, args, sh) && LinksOkSeq(args, c, k)
    requires RefsSeq(args) <= env.used
    requires n <= |args| && TailDefault(env.used, c, args, n, k)
    ensures Fine(env.used, PrintItems(env, st, args, n, sep, c, k).st, c, k + NumResultsSeq(args))
    decreases args
  {
    if n == 0 {
      FineOverDefaults(env.used, st, c, k, args);
    } else {
      SeqParts(env.tgt, env.used, args, sh, c, k);
      if IsPad(args[0].typ) {
        PadHasNoResults(env.tgt, args[0], Head(sh).value);
      } else {
        ArgFine(env, st, args[0], Head(sh).value, c, k);
      }
      ItemsFine(env, NextState(env, st, args[0], c, k), args[1..], n - 1, true, Tail(sh), c, k + NumResults(args[0]));
      RestFine(env, st, args, n, sep, c, k);
    }
  }

  /** The serializer's state after one member. */
  function NextState(env: Env, st: SerState, a: Arg, c: nat, k: nat): SerState {
    if IsPad(a.typ) then st else PrintArg(env, st, a, c, k).st
  }

  lemma {:induction false} RestFine(env: Env, st: SerState, args: seq<Arg>, n: nat, sep: bool, c: nat, k: nat)
    requires 0 < n <= |args|
    requires var k1 := k + NumResults(args[0]);
      Fine(env.used, PrintItems(env, NextState(env, st, args[0], c, k), args[1..], n - 1, true, c, k1).st, c,
          k1 + NumResultsSeq(args[1..]))
    ensures Fine(env.used, PrintItems(env, st, args, n, sep, c, k).st, c, k + NumResultsSeq(args))
  {
    ItemsStep(env, st, args, n, sep, c, k);
  }

  // ----- a call adds only variables of its own -----

  /** `st1` has the variables of `st` and some of call `c` from ordinal `k` on. */
  ghost predicate Grows(st: SerState, st1: SerState, c: nat, k: nat) {
    && (forall l :: l in st.vars && !(l.call == c && l.idx >= k) ==> l in st1.vars && st1.vars[l] == st.vars[l])
    && (forall l :: l in st1.vars ==> l in st.vars || (l.call == c && l.idx >= k))
  }

  lemma {:induction false} ArgGrows(env: Env, st: SerState, a: Arg, c: nat, k: nat)
    ensures Grows(st, PrintArg(env, st, a, c, k).st, c, k)
    decreases a
  {
    match a
    case PointerArg(_, _, _, res) => if res.Some? { ArgGrows(env, st, res.value, c, k); }
    case GroupArg(t, inner) => ItemsGrow(env, st, inner, Shown(env, t, inner, c, k), false, c, k);
    case UnionArg(_, option) => ArgGrows(env, st, option, c, k);
    case _ =>
  }

  lemma {:induction false} ItemsGrow(env: Env, st: SerState, args: seq<Arg>, n: nat, sep: bool, c: nat, k: nat)
    requires n <= |args|
    ensures Grows(st, PrintItems(env, st, args, n, sep, c, k).st, c, k)
    decreases args
  {
    if n > 0 {
      var k1 := k + NumResults(args[0]);
      if IsPad(args[0].typ) {
        ItemsGrow(env, st, args[1..], n - 1, true, c, k1);
      } else {
        var one := PrintArg(env, st, args[0], c, k);
        ArgGrows(env, st, args[0], c, k);
        ItemsGrow(env, one.st, args[1..], n - 1, true, c, k1);
      }
    }
  }

  // ----- printed lines hold no line breaks -----

  lemma {:induction false} IdentPlain(s: string)
    requires IsIdent(s)
    ensures Plain(s)
  {
    forall i | 0 <= i < |s| ensures 0x20 <= s[i] as int < 0x7f { assert IsIdentChar(s[i]); }
  }

  lemma {:induction false} AddrPlain(addr: U64, size: U64)
    ensures Plain(PrintAddr(addr, size))
  {
    IdentPlain(Hex((ADDR_BASE + addr) % TWO64));
    IdentPlain(Hex(size));
  }

  lemma {:induction false} DataPlain(a: Arg)
    requires a.DataArg?
    ensures Plain(PrintDataArg(a))
  {
    IdentPlain(Dec(Size(a)));
    IdentPlain(Dec(|a.data|));
    var shown := ShownData(a.typ, a.data);
    PrintDataPlain(shown, ReadableType(a.typ));
    PlainJoin("\"\"/", Dec(Size(a)));
    PlainJoin("/", Dec(|a.data|));
    PlainJoin(PrintData(shown, ReadableType(a.typ)), "/" + Dec(|a.data|));
    PlainJoin(PrintData(shown, ReadableType(a.typ)), "");
  }

  lemma {:induction false} PlainJoin(s: string, t: string)
    requires Plain(s) && Plain(t)
    ensures Plain(s + t)
  {
  }

  lemma {:induction false} RefPlain(st: SerState, l: Loc, opDiv: U64, opAdd: U64)
    ensures Plain(PrintRef(st, l, opDiv, opAdd))
  {
    if l in st.vars { IdentPlain(Name(st.vars[l])); }
    IdentPlain(Dec(opDiv));
    IdentPlain(Dec(opAdd));
  }

  lemma {:induction false} ResultPlain(used: set<Loc>, st: SerState, a: Arg, c: nat, k: nat)
    requires a.ResultArg?
    ensures Plain(PrintResult(used, st, a, c, k).text)
  {
    IdentPlain(Name(st.next));
    if a.ref.None? { IdentPlain(Hex(a.val)); }
    else {
      RefPlain(st, a.ref.value, a.opDiv, a.opAdd);
      RefPlain(AllocVar(st, Loc(c, k)), a.ref.value, a.opDiv, a.opAdd);
    }
  }

  lemma {:induction false} AttachPlain(head: string, st: SerState, elide: bool, part: Printed)
    requires Plain(head) && (!elide ==> Plain(part.text))
    ensures Plain(Attach(head, st, elide, part).text)
  {
  }

  lemma {:induction false} ArgPlain(env: Env, st: SerState, a: Arg, t: Type, c: nat, k: nat)
    requires PointeesOk(env.tgt) && TypeOk(|env.tgt.pointees|, t) && ValidArg(env.tgt, a, t)
    ensures Plain(PrintArg(env, st, a, c, k).text)
    decreases a
  {
    match a
    case ConstArg(_, val) => IdentPlain(Hex(val));
    case PointerArg(_, address, vmaSize, res) =>
      IdentPlain(Hex(address));
      AddrPlain(address, vmaSize);
      if res.Some? {
        ArgPlain(env, st, res.value, env.tgt.pointees[t.pointee], c, k);
        AttachPlain(PrintAddr(address, vmaSize), st, Elided(env, c, res.value, k), PrintArg(env, st, res.value, c, k));
      }
    case DataArg(_, _, _) => DataPlain(a);
    case GroupArg(_, inner) => ItemsPlain(env, st, inner, Shown(env, t, inner, c, k), false, ShapeOf(t), c, k);
    case UnionArg(_, option) =>
      var name := option.typ.com.field;
      OptionOk(|env.tgt.pointees|, t.options, name);
      IdentPlain(name);
      ArgPlain(env, st, option, FindOption(t.options, name).value, c, k);
      AttachPlain("@" + name, st, Elided(env, c, option, k), PrintArg(env, st, option, c, k));
    case ResultArg(_, _, _, _, _) => ResultPlain(env.used, st, a, c, k);
  }

  lemma {:induction false} ItemsPlain(env: Env, st: SerState, args: seq<Arg>, n: nat, sep: bool, sh: Shape, c: nat,
      k: nat)
    requires PointeesOk(env.tgt) && ShapeOk(|env.tgt.pointees|, sh) && ValidSeq(env.tgt, args, sh) && n <= |args|
    ensures Plain(PrintItems(env, st, args, n, sep, c, k).text)
    decreases args
  {
    if n > 0 {
      ShapeParts(env.tgt, args, sh);
      if !IsPad(args[0].typ) { ArgPlain(env, st, args[0], Head(sh).value, c, k); }
      ItemsPlain(env, NextState(env, st, args[0], c, k), args[1..], n - 1, true, Tail(sh), c, k + NumResults(args[0]));
      HeadPlain(env, st, args, n, sep, c, k);
    }
  }

  lemma {:induction false} HeadPlain(env: Env, st: SerState, args: seq<Arg>, n: nat, sep: bool, c: nat, k: nat)
    requires 0 < n <= |args| && (!IsPad(args[0].typ) ==> Plain(PrintArg(env, st, args[0], c, k).text))
    requires Plain(PrintItems(env, NextState(env, st, args[0], c, k), args[1..], n - 1, true, c,
        k + NumResults(args[0])).text)
    ensures Plain(PrintItems(env, st, args, n, sep, c, k).text)
  {
    var one := PrintArg(env, st, args[0], c, k);
    var more := PrintItems(env, NextState(env, st, args[0], c, k), args[1..], n - 1, true, c, k + NumResults(args[0]));
    ItemsTextStep(env, st, args, n, sep, c, k, one, more);
    if !IsPad(args[0].typ) { ItemPlain(sep, one.text, more.text); }
  }

  lemma {:induction false} ShapeParts(tgt: Target, args: seq<Arg>, sh: Shape)
    requires args != [] && ShapeOk(|tgt.pointees|, sh) && ValidSeq(tgt, args, sh)
    ensures Head(sh).Some? && TypeOk(|tgt.pointees|, Head(sh).value) && ValidArg(tgt, args[0], Head(sh).value)
    ensures ShapeOk(|tgt.pointees|, Tail(sh)) && ValidSeq(tgt, args[1..], Tail(sh))
  {
    TailOk(|tgt.pointees|, sh);
    HeadOk(|tgt.pointees|, sh);
  }

  lemma {:induction false} ItemsTextStep(env: Env, st: SerState, args: seq<Arg>, n: nat, sep: bool, c: nat, k: nat,
      one: Printed, more: Printed)
    requires 0 < n <= |args| && one == PrintArg(env, st, args[0], c, k)
    requires more == PrintItems(env, if IsPad(args[0].typ) then st else one.st, args[1..], n - 1, true, c,
        k + NumResults(args[0]))
    ensures PrintItems(env, st, args, n, sep, c, k).text ==
      if IsPad(args[0].typ) then more.text else (if sep then ", " else "") + (one.text + more.text)
  {
  }

  lemma {:induction false} ItemPlain(sep: bool, one: string, more: string)
    requires Plain(one) && Plain(more)
    ensures Plain((if sep then ", " else "") + (one + more))
  {
  }

  lemma {:induction false} HeadOk(n: nat, sh: Shape)
    requires ShapeOk(n, sh) && Head(sh).Some?
    ensures TypeOk(n, Head(sh).value)
  {
  }

  // ----- one call -----

  /** Between two calls the parser knows all variables. */
  ghost predicate Between(env: Env, st: SerState, vars: map<string, Loc>, c: nat) {
    !st.panicked && Known(env.used, st, c, 1) && Agree(st, vars, c) && forall l :: l in st.vars ==> l.call < c
  }

  /** The serializer's state after the name of the result. */
  function Opened(env: Env, st: SerState, call: Call, c: nat): SerState {
    if call.ret.Some? && Loc(c, 0) in env.used then AllocVar(st, Loc(c, 0)) else st
  }

  lemma {:induction false} OpenedSync(env: Env, st: SerState, call: Call, c: nat, vars: map<string, Loc>)
    requires Between(env, st, vars, c)
    ensures Sync(env, Opened(env, st, call, c), State(vars, c, 1), c, 1)
  {
  }

  /** The variables of the parser after the call. */
  function Closed(env: Env, st: SerState, call: Call, c: nat, vars: map<string, Loc>): map<string, Loc> {
    if call.ret.Some? && Loc(c, 0) in env.used then vars[Name(st.next) := Loc(c, 0)] else vars
  }

  /** Result arguments of the call that are used exist. */
  ghost predicate UsedExist(used: set<Loc>, call: Call, c: nat) {
    forall l :: l in used && l.call == c ==> if l.idx == 0 then call.ret.Some? else l.idx <= NumResultsSeq(call.args)
  }

  lemma {:induction false} ClosedKnown(env: Env, st: SerState, st1: SerState, call: Call, c: nat)
    requires Grows(Opened(env, st, call, c), st1, c, 1) && UsedExist(env.used, call, c)
    requires Known(env.used, st1, c, 1 + NumResultsSeq(call.args))
    ensures Known(env.used, st1, c + 1, 1)
  {
    forall l | l in env.used && Before(l, c + 1, 1) ensures l in st1.vars {
      assert l == Loc(l.call, l.idx);
      assert l.call < c || l.idx == 0 || Before(l, c, 1 + NumResultsSeq(call.args));
    }
  }

  lemma {:induction false} ClosedAgree(env: Env, st: SerState, st1: SerState, call: Call, c: nat, vars: map<string,
      Loc>)
    requires Agree(st1, vars, c) && Grows(Opened(env, st, call, c), st1, c, 1)
    requires forall l :: l in st.vars ==> l.call < c
    ensures Agree(st1, Closed(env, st, call, c, vars), c + 1)
  {
    var named := call.ret.Some? && Loc(c, 0) in env.used;
    assert named ==> Loc(c, 0) in st1.vars && st1.vars[Loc(c, 0)] == st.next;
    assert !named ==> Loc(c, 0) !in st1.vars;
    forall id | id >= st1.next ensures Name(id) !in Closed(env, st, call, c, vars) {
      if named && Name(id) == Name(st.next) { NameInjective(id, st.next); }
    }
  }

  lemma {:induction false} ClosedBetween(env: Env, st: SerState, st1: SerState, call: Call, c: nat, vars: map<string,
      Loc>,
                                         ps: State)
    requires Between(env, st, vars, c) && Grows(Opened(env, st, call, c), st1, c, 1)
    requires Sync(env, st1, ps, c, 1 + NumResultsSeq(call.args)) && UsedExist(env.used, call, c)
    ensures Between(env, st1, Closed(env, st, call, c, ps.vars), c + 1)
  {
    ClosedKnown(env, st, st1, call, c);
    ClosedAgree(env, st, st1, call, c, ps.vars);
  }

  lemma {:induction false} FindsSyscall(calls: seq<Syscall>, sc: Syscall)
    requires sc in calls
    requires forall i, j :: 0 <= i < j < |calls| ==> calls[i].name != calls[j].name
    ensures FindSyscall(calls, sc.name) == Some(sc)
  {
    if calls[0].name == sc.name {
      var j :| 0 <= j < |calls| && calls[j] == sc;
      assert j == 0;
    } else {
      FindsSyscall(calls[1..], sc);
    }
  }

  function CallHead(named: bool, id: nat): string {
    if named then Name(id) + " = " else ""
  }

  lemma {:induction false} BlanksAround(s: string)
    requires s != "" && !IsBlank(s[0])
    ensures SkipWs(" = " + s) == "= " + s && Eat('=', "= " + s) == Token((), s)
  {
    assert (" = " + s)[1..] == "= " + s && ("= " + s)[1..] == " " + s && (" " + s)[1..] == s;
    assert SkipWs(" " + s) == SkipWs(s) == s;
  }

  lemma {:induction false} CallNameBack(named: bool, id: nat, name: string, s: string)
    requires IsIdent(name)
    ensures ParseCallName(CallHead(named, id) + (name + ("(" + s))) ==
            Token((if named then Some(Name(id)) else None, name), "(" + s)
  {
    var call := name + ("(" + s);
    IdentOf(name, "(" + s);
    if named {
      var eq := " = " + call;
      Assoc(Name(id), " = ", call);
      IdentLenOf(Name(id), eq);
      assert (Name(id) + eq)[..|Name(id)|] == Name(id) && (Name(id) + eq)[|Name(id)|..] == eq;
      BlanksAround(call);
    } else {
      assert "" + call == call;
    }
  }

  /** The arguments of a call as printed. */
  function ArgsText(env: Env, st: SerState, call: Call, c: nat): Printed {
    PrintItems(env, Opened(env, st, call, c), call.args, |call.args|, false, c, 1)
  }

  /** What the parser makes of the arguments. */
  function ArgsRead(tgt: Target, meta: Syscall, c: nat, vars: map<string, Loc>, text: string): Parsed<seq<Arg>>
    requires TargetOk(tgt) && meta in tgt.syscalls
  {
    MetaOk(tgt, meta);
    ParseItems(tgt, Fields(meta.args), ')', State(vars, c, 1), text + (")" + ""))
  }

  lemma {:induction false} MetaOk(tgt: Target, meta: Syscall)
    requires TargetOk(tgt) && meta in tgt.syscalls
    ensures SyscallOk(|tgt.pointees|, meta)
  {
  }

  lemma {:induction false} ArgsBack(env: Env, st: SerState, call: Call, c: nat, vars: map<string, Loc>)
    requires TargetOk(env.tgt) && ValidCall(env.tgt, call, c) && RefsSeq(call.args) <= env.used
    requires Between(env, st, vars, c)
    ensures ItemsBack(env, ArgsText(env, st, call, c).st,
        ArgsRead(env.tgt, call.meta, c, vars, ArgsText(env, st, call, c).text),
                      call.args, c, 1, "", CanonicalCall(env, call, c))
  {
    MetaOk(env.tgt, call.meta);
    OpenedSync(env, st, call, c, vars);
    FullTail(env.used, call.args, c, 1);
    MembersBack(env, Opened(env, st, call, c), call.args, |call.args|, false, Fields(call.meta.args), ')', c, 1,
                State(vars, c, 1), "");
  }

  /** Reading a line that starts with the name of a known call. */
  lemma {:induction false} LineReads(tgt: Target, vars: map<string, Loc>, c: nat, named: bool, id: nat, meta: Syscall,
      text: string)
    requires TargetOk(tgt) && meta in tgt.syscalls && (text != "" ==> !IsBlank(text[0]))
    ensures var args := ArgsRead(tgt, meta, c, vars, text);
      ParseLine(tgt, vars, c, CallHead(named, id) + (meta.name + ("(" + (text + ")")))) ==
      if args.Fail? || (args.rest != "" && args.rest[0] != '#') then None
      else Some(MakeLine(meta, if named then Some(Name(id)) else None, c, args.v, args.st.vars))
  {
    MetaOk(tgt, meta);
    var s := text + ")";
    assert s == text + (")" + "");
    FindsSyscall(tgt.syscalls, meta);
    CallNameBack(named, id, meta.name, s);
    EatOf('(', s);
  }

  /** A printed call is read back, with the variables for the next one, exactly when it is
      canonical. */
  ghost predicate LineBack(env: Env, st: SerState, r: Option<Line>, call: Call, c: nat) {
    if env.tgt.pageSize > 0 && CanonicalCall(env, call, c)
        then r.Some? && r.value.call == call && Between(env, st, r.value.vars, c + 1)
    else r.None? || r.value.call != call
  }

  lemma {:induction false} CallBack(env: Env, st: SerState, call: Call, c: nat, vars: map<string, Loc>)
    requires TargetOk(env.tgt) && ValidCall(env.tgt, call, c) && RefsSeq(call.args) <= env.used
    requires Between(env, st, vars, c) && UsedExist(env.used, call, c)
    ensures var pr := PrintCall(env, st, call, c);
      LineBack(env, pr.st, ParseLine(env.tgt, vars, c, pr.text), call, c)
  {
    var named := call.ret.Some? && Loc(c, 0) in env.used;
    var args := ArgsText(env, st, call, c);
    ArgsBack(env, st, call, c, vars);
    ArgsStart(env, st, call, c);
    LineReads(env.tgt, vars, c, named, st.next, call.meta, args.text);
    ItemsGrow(env, Opened(env, st, call, c), call.args, |call.args|, false, c, 1);
    var r := ArgsRead(env.tgt, call.meta, c, vars, args.text);
    if CanonicalCall(env, call, c) {
      ClosedBetween(env, st, args.st, call, c, vars, r.st);
      RetSame(env.tgt, call, c, if named then Some(Name(st.next)) else None, r.st.vars);
    }
  }

  lemma {:induction false} RetSame(tgt: Target, call: Call, c: nat, name: Option<string>, vars: map<string, Loc>)
    requires ValidCall(tgt, call, c)
    ensures MakeLine(call.meta, name, c, call.args, vars).call == call
    ensures MakeLine(call.meta, name, c, call.args, vars).vars ==
            if call.ret.Some? && name.Some? then vars[name.value := Loc(c, 0)] else vars
  {
  }

  lemma {:induction false} ItemsFirst(env: Env, st: SerState, args: seq<Arg>, n: nat, c: nat, k: nat)
    requires 0 < n <= |args| && !IsPad(args[0].typ)
    ensures Starts(PrintItems(env, st, args, n, false, c, k).text)
  {
    PrintStarts(env, st, args[0], c, k);
  }

  lemma {:induction false} ArgsStart(env: Env, st: SerState, call: Call, c: nat)
    requires TargetOk(env.tgt) && ValidCall(env.tgt, call, c)
    ensures var s := ArgsText(env, st, call, c).text; s != "" ==> !IsBlank(s[0])
  {
    MetaOk(env.tgt, call.meta);
    if call.args != [] {
      assert ValidArg(env.tgt, call.args[0], call.meta.args[0]);
      ItemsFirst(env, Opened(env, st, call, c), call.args, |call.args|, c, 1);
    }
  }

  // ----- lines -----

  lemma {:induction false} IndexOfBreak(x: string, rest: string)
    requires Plain(x)
    ensures IndexOf('\n', x + ("\n" + rest)) == |x|
  {
    var s := x + ("\n" + rest);
    if x == "" {
      assert s == "\n" + rest;
    } else {
      assert s[1..] == x[1..] + ("\n" + rest);
      IndexOfBreak(x[1..], rest);
    }
  }

  lemma {:induction false} LinesOf(x: string, rest: string)
    requires Plain(x)
    ensures Lines(x + ("\n" + rest)) == [x] + Lines(rest)
  {
    var s := x + ("\n" + rest);
    IndexOfBreak(x, rest);
    assert s[..|x|] == x && s[|x| + 1..] == rest;
  }

  lemma {:induction false} CallPlain(env: Env, st: SerState, call: Call, c: nat)
    requires TargetOk(env.tgt) && ValidCall(env.tgt, call, c)
    ensures var s := PrintCall(env, st, call, c).text; Plain(s) && s != "" && s[0] != '#'
  {
    MetaOk(env.tgt, call.meta);
    ItemsPlain(env, Opened(env, st, call, c), call.args, |call.args|, false, Fields(call.meta.args), c, 1);
    var named := call.ret.Some? && Loc(c, 0) in env.used;
    PlainParts(CallHead(named, st.next), call.meta.name, ArgsText(env, st, call, c).text);
    IdentPlain(Name(st.next));
    IdentPlain(call.meta.name);
  }

  lemma {:induction false} PlainParts(head: string, name: string, args: string)
    requires Plain(head) && Plain(name) && Plain(args)
    ensures Plain(head + (name + ("(" + (args + ")"))))
  {
  }

  /** A call line among other lines. */
  lemma {:induction false} LinesStep(tgt: Target, vars: map<string, Loc>, c: nat, s: string, lines: seq<string>)
    requires TargetOk(tgt) && Plain(s) && s != "" && s[0] != '#'
    ensures var l := ParseLine(tgt, vars, c, s);
      ParseLines(tgt, vars, c, [s] + lines) ==
      if |s| >= MAX_LINE || l.None? then None else Cons(l.value.call, ParseLines(tgt, l.value.vars, c + 1, lines))
  {
    assert ([s] + lines)[1..] == lines;
    assert DropCR(s) == s;
  }

  // ----- programs -----

  /** What a valid program gives for each of its calls. */
  ghost predicate CallReady(env: Env, call: Call, c: nat) {
    ValidCall(env.tgt, call, c) && RefsSeq(call.args) <= env.used && UsedExist(env.used, call, c)
  }

  lemma {:induction false} RefsOfCall(p: Program, c: nat)
    requires c < |p|
    ensures RefsSeq(p[c].args) <= RefsProg(p)
  {
    if c > 0 {
      assert p[1..][c - 1] == p[c];
      RefsOfCall(p[1..], c - 1);
    }
  }

  lemma {:induction false} AllReady(tgt: Target, p: Program, verbose: bool, c: nat)
    requires ValidProg(tgt, p) && c < |p|
    ensures CallReady(Env(tgt, RefsProg(p), verbose), p[c], c)
  {
    RefsOfCall(p, c);
    forall l | l in RefsProg(p) && l.call == c
      ensures if l.idx == 0 then p[c].ret.Some? else l.idx <= NumResultsSeq(p[c].args)
    {
      assert Exists(p, l);
    }
  }

  lemma {:induction false} CallFine(env: Env, st: SerState, call: Call, c: nat)
    requires CallReady(env, call, c) && Fine(env.used, st, c, 1)
    ensures Fine(env.used, PrintCall(env, st, call, c).st, c + 1, 1)
  {
    var st1 := Opened(env, st, call, c);
    FullTail(env.used, call.args, c, 1);
    ItemsFine(env, st1, call.args, |call.args|, false, Fields(call.meta.args), c, 1);
    ItemsGrow(env, st1, call.args, |call.args|, false, c, 1);
    ClosedKnown(env, st, ArgsText(env, st, call, c).st, call, c);
  }

  /** The "no result" panic does not happen. */
  lemma {:induction false} CallsFine(env: Env, st: SerState, p: Program, c: nat)
    requires c <= |p| && Fine(env.used, st, c, 1)
    requires forall i :: c <= i < |p| ==> CallReady(env, p[i], i)
    ensures !PrintCalls(env, st, p, c).st.panicked
    decreases |p| - c
  {
    if c < |p| {
      CallFine(env, st, p[c], c);
      CallsFine(env, PrintCall(env, st, p[c], c).st, p, c + 1);
    }
  }

  predicate CanonicalFrom(env: Env, p: Program, c: nat)
    requires env.tgt.pageSize > 0
  {
    forall i :: c <= i < |p| ==> CanonicalCall(env, p[i], i)
  }

  lemma {:induction false} FitStep(x: string, rest: string)
    requires Plain(x)
    ensures LinesFit(x + ("\n" + rest)) <==> |x| < MAX_LINE && LinesFit(rest)
  {
    LinesOf(x, rest);
    var all := Lines(x + ("\n" + rest));
    assert all == [x] + Lines(rest);
    assert forall i :: 0 <= i < |Lines(rest)| ==> all[i + 1] == Lines(rest)[i];
    if |x| < MAX_LINE && LinesFit(rest) {
      forall i | 0 <= i < |all| ensures |all[i]| < MAX_LINE {
        if i > 0 { assert all[i] == Lines(rest)[i - 1]; }
      }
    }
    if LinesFit(x + ("\n" + rest)) {
      assert all[0] == x;
    }
  }

  /** The first line of printed calls, and the rest. */
  lemma {:induction false} CallsRead(env: Env, st: SerState, p: Program, c: nat, vars: map<string, Loc>, one: Printed,
      rest: string)
    requires TargetOk(env.tgt) && c < |p| && ValidCall(env.tgt, p[c], c)
    requires one == PrintCall(env, st, p[c], c) && rest == PrintCalls(env, one.st, p, c + 1).text
    ensures var text := PrintCalls(env, st, p, c).text;
      var l := ParseLine(env.tgt, vars, c, one.text);
      && (LinesFit(text) <==> |one.text| < MAX_LINE && LinesFit(rest))
      && ParseLines(env.tgt, vars, c, Lines(text)) ==
         if |one.text| >= MAX_LINE || l.None? then None
         else Cons(l.value.call, ParseLines(env.tgt, l.value.vars, c + 1, Lines(rest)))
  {
    CallPlain(env, st, p[c], c);
    LinesOf(one.text, rest);
    FitStep(one.text, rest);
    LinesStep(env.tgt, vars, c, one.text, Lines(rest));
  }

  lemma {:induction false} CanonicalFromStep(env: Env, p: Program, c: nat)
    requires env.tgt.pageSize > 0 && c < |p|
    ensures CanonicalFrom(env, p, c) <==> CanonicalCall(env, p[c], c) && CanonicalFrom(env, p, c + 1)
  {
  }

  lemma {:induction false} CallsBack(env: Env, st: SerState, p: Program, c: nat, vars: map<string, Loc>)
    requires TargetOk(env.tgt) && c <= |p| && Between(env, st, vars, c)
    requires forall i :: c <= i < |p| ==> CallReady(env, p[i], i)
    ensures var text := PrintCalls(env, st, p, c).text;
      ParseLines(env.tgt, vars, c, Lines(text)) == Some(p[c..]) <==> CanonicalFrom(env, p, c) && LinesFit(text)
    decreases |p| - c
  {
    if c < |p| {
      assert CallReady(env, p[c], c);
      var one := PrintCall(env, st, p[c], c);
      var rest := PrintCalls(env, one.st, p, c + 1).text;
      CallsRead(env, st, p, c, vars, one, rest);
      CallBack(env, st, p[c], c, vars);
      CanonicalFromStep(env, p, c);
      FirstOf(p, c);
      var l := ParseLine(env.tgt, vars, c, one.text);
      if CanonicalCall(env, p[c], c) {
        CallsBack(env, one.st, p, c + 1, l.value.vars);
        ConsSame(p[c], ParseLines(env.tgt, l.value.vars, c + 1, Lines(rest)), p[c + 1..]);
      } else if l.Some? {
        ConsOther(l.value.call, ParseLines(env.tgt, l.value.vars, c + 1, Lines(rest)), p[c], p[c + 1..]);
      }
    } else {
      assert p[c..] == [];
    }
  }

  lemma {:induction false} FirstOf(p: Program, c: nat)
    requires c < |p|
    ensures p[c..] == [p[c]] + p[c + 1..]
  {
  }

  lemma {:induction false} ConsSame(call: Call, r: Option<Program>, p: Program)
    ensures Cons(call, r) == Some([call] + p) <==> r == Some(p)
  {
    if r.Some? && [call] + r.value == [call] + p {
      assert ([call] + r.value)[1..] == r.value && ([call] + p)[1..] == p;
    }
  }

  lemma {:induction false} ConsOther(other: Call, r: Option<Program>, call: Call, p: Program)
    requires other != call
    ensures Cons(other, r) != Some([call] + p)
  {
    if r.Some? {
      assert ([other] + r.value)[0] != ([call] + p)[0];
    }
  }

  /** Serialize does not panic on a valid program, and Deserialize gives the program back exactly
      when its text says everything about it and no line is too long. */
  lemma {:induction false} RoundTrip(tgt: Target, p: Program, verbose: bool)
    requires TargetOk(tgt) && ValidProg(tgt, p)
    ensures var text := Serialize(tgt, p, verbose);
      && text.Some?
      && (Deserialize(tgt, text.value) == Some(p) <==> CanonicalProg(tgt, p, verbose) && LinesFit(text.value))
  {
    var env := Env(tgt, RefsProg(p), verbose);
    var st := SerState(map[], 0, false);
    forall i | 0 <= i < |p| ensures CallReady(env, p[i], i) { AllReady(tgt, p, verbose, i); }
    CallsFine(env, st, p, 0);
    CallsBack(env, st, p, 0, map[]);
    assert p[0..] == p;
  }

  /** Programs with the same text are the same. */
  lemma {:induction false} SerializeInjective(tgt: Target, p: Program, q: Program, verbose: bool)
    requires TargetOk(tgt) && ValidProg(tgt, p) && ValidProg(tgt, q)
    requires CanonicalProg(tgt, p, verbose) && CanonicalProg(tgt, q, verbose)
    requires Serialize(tgt, p, verbose) == Serialize(tgt, q, verbose)
    requires Serialize(tgt, p, verbose).Some? ==> LinesFit(Serialize(tgt, p, verbose).value)
    ensures p == q
  {
    RoundTrip(tgt, p, verbose);
    RoundTrip(tgt, q, verbose);
  }

  const NIL_PTR := PtrT(Common("t", "a", 8, DirIn, false, false), 0)
  const NIL_META := Syscall(0, "f", [NIL_PTR], None)
  const NIL_TARGET := Target(4096, 4, 0, [0], [NIL_META],
      [IntT(Common("t", "a", 8, DirIn, false, false), IntBits(Native, 0, 0, 0, 0))])
  const NIL_ARG := PointerArg(NIL_PTR, 4096, 0, None)
  const NIL_PROG := [Call(NIL_META, [NIL_ARG], None)]

  lemma {:induction false} NilTargetOk()
    ensures TargetOk(NIL_TARGET)
  {
    assert [NIL_PTR][1..] == [];
    assert TypeOk(1, NIL_PTR) && TypesOk(1, []);
    assert TypesOk(1, [NIL_PTR]);
  }

  /** The references of a program with one call of one argument. */
  lemma {:induction false} OneRefs(p: Program, a: Arg)
    requires |p| == 1 && p[0].args == [a]
    ensures RefsProg(p) == Refs(a)
  {
    var args, rest := p[0].args, p[1..];
    assert args[1..] == [] && rest == [];
    assert RefsSeq(args) == Refs(args[0]) + RefsSeq(args[1..]);
    assert RefsProg(p) == RefsSeq(args) + RefsProg(rest);
  }

  lemma {:induction false} NilProgValid()
    ensures ValidProg(NIL_TARGET, NIL_PROG)
  {
    assert [NIL_PTR][1..] == [] && [NIL_ARG][1..] == [] && NIL_PROG[1..] == [];
    assert !IsSpecial(NIL_ARG) && ValidArg(NIL_TARGET, NIL_ARG, NIL_PTR);
    assert ValidSeq(NIL_TARGET, [], Fields([]));
    assert ValidSeq(NIL_TARGET, [NIL_ARG], Fields([NIL_PTR]));
    assert LinksOk(NIL_ARG, 0, 1) && LinksOkSeq([], 0, 1);
    assert LinksOkSeq([NIL_ARG], 0, 1);
    OneRefs(NIL_PROG, NIL_ARG);
  }

  /** Validity alone is not enough: validate accepts a pointer to nothing at an ordinary address,
      and the parser turns it into a pointer to a default value. */
  lemma {:induction false} ValidIsNotEnough()
    ensures TargetOk(NIL_TARGET) && ValidProg(NIL_TARGET, NIL_PROG)
    ensures var text := Serialize(NIL_TARGET, NIL_PROG, false);
      text.Some? && Deserialize(NIL_TARGET, text.value) != Some(NIL_PROG)
  {
    NilTargetOk();
    NilProgValid();
    var env := Env(NIL_TARGET, RefsProg(NIL_PROG), false);
    assert !Canonical(env, 0, NIL_ARG, 1);
    assert !CanonicalCall(env, NIL_PROG[0], 0);
    RoundTrip(NIL_TARGET, NIL_PROG, false);
  }
}
