/**
  Deserialize undoes Serialize.

  validate accepts programs whose text does not say everything about them, so the law is an
  equivalence: the text of a valid program parses to that program exactly when the program is
  `Canonical` and no line is too long.
 */
module TextRoundTrip {
  import opened Arith
  import opened Ir
  import opened Defaults
  import opened TextLex
  import opened TextPrint
  import opened TextParse

  // ----- when the text says everything -----

  /** What the text keeps: members left out as defaults need nothing more; otherwise
      ranges are page-aligned, pointers point to something, printed sizes fit memory, strings
      are among the listed ones, and a result has either a value or a reference with
      operations, and not to itself. */
  predicate Canonical(env: Env, c: nat, a: Arg, k: nat)
    requires env.tgt.pageSize > 0
    decreases a
  {
    match a
    case ConstArg(_, _) => true
    case PointerArg(t, address, vmaSize, res) =>
      || IsSpecial(a)
      || if t.VmaT? then
           address % env.tgt.pageSize == 0 && vmaSize % env.tgt.pageSize == 0 && address + vmaSize <= MaxMem(env.tgt)
         else res.Some? && (Elided(env, c, res.value, k) || Canonical(env, c, res.value, k))
    case DataArg(_, _, _) => CanonicalData(env.tgt, a)
    case GroupArg(t, inner) => CanonicalSeq(env, c, inner, Shown(env, t, inner, c, k), k)
    case UnionArg(_, option) => Elided(env, c, option, k) || Canonical(env, c, option, k)
    case ResultArg(_, ref, opDiv, opAdd, val) =>
      if ref.None? then opDiv == 0 && opAdd == 0 else val == 0 && ref.value != Loc(c, k)
  }

  predicate Elided(env: Env, c: nat, a: Arg, k: nat) {
    !env.verbose && IsDefault(env.used, c, a, k)
  }

  /** Of data cut to the size of memory only a listed string can come back: the parser puts the
      first listed string in place of one that is not listed. */
  predicate CanonicalData(tgt: Target, a: Arg)
    requires a.DataArg?
  {
    var t, data := a.typ, a.data;
    if t.com.dir == DirOut then t.com.varlen ==> Size(a) <= MaxMem(tgt)
    else if t.com.varlen && |ShownData(t, data)| != |data| && |data| > MaxMem(tgt) then
      Listed(t) && data == t.values[0] && data[..MaxMem(tgt)] !in t.values
    else Listed(t) ==> data in t.values
  }

  predicate CanonicalSeq(env: Env, c: nat, args: seq<Arg>, n: nat, k: nat)
    requires env.tgt.pageSize > 0 && n <= |args|
    decreases args
  {
    n > 0 ==>
      && (if IsPad(args[0].typ) then args[0].ConstArg? && args[0].val == 0 else Canonical(env, c, args[0], k))
      && CanonicalSeq(env, c, args[1..], n - 1, k + NumResults(args[0]))
  }

  // ----- serializer and parser in step -----

  ghost predicate Known(used: set<Loc>, st: SerState, c: nat, k: nat) {
    forall l :: l in used && Before(l, c, k) ==> l in st.vars
  }

  /** The parser knows the variables of the serializer, except that of the current call. */
  ghost predicate Agree(st: SerState, vars: map<string, Loc>, c: nat) {
    && (forall l :: l in st.vars && l != Loc(c, 0) ==>
         st.vars[l] < st.next && Name(st.vars[l]) in vars && vars[Name(st.vars[l])] == l)
    && (forall id :: id >= st.next ==> Name(id) !in vars)
    && (Loc(c, 0) in st.vars ==> st.vars[Loc(c, 0)] < st.next && Name(st.vars[Loc(c, 0)]) !in vars)
  }

  ghost predicate Sync(env: Env, st: SerState, ps: State, c: nat, k: nat) {
    && ps.call == c && ps.next == k && k >= 1 && !st.panicked
    && Known(env.used, st, c, k)
    && Agree(st, ps.vars, c)
  }

  lemma {:induction false} AllocAgrees(st: SerState, vars: map<string, Loc>, c: nat, k: nat)
    requires Agree(st, vars, c) && k >= 1
    ensures Agree(AllocVar(st, Loc(c, k)), vars[Name(st.next) := Loc(c, k)], c)
  {
    forall id: nat | id > st.next ensures Name(id) != Name(st.next) {
      if Name(id) == Name(st.next) { NameInjective(id, st.next); }
    }
    if Loc(c, 0) in st.vars && Name(st.vars[Loc(c, 0)]) == Name(st.next) {
      NameInjective(st.vars[Loc(c, 0)], st.next);
    }
  }

  /** What follows an argument. */
  predicate Delim(s: string) {
    s != "" && (s[0] == ',' || s[0] == ')' || s[0] == '}' || s[0] == ']')
  }

  /** The first character of a printed argument. */
  predicate Starts(s: string) {
    s != "" && s[0] in "0r&'\"{[@<"
  }

  lemma {:induction false} Assoc(a: string, b: string, c: string)
    ensures (a + b) + c == a + (b + c)
  {
  }

  /** The argument comes back if and only if `good`. */
  ghost predicate Back(env: Env, st: SerState, r: Parsed<Arg>, a: Arg, c: nat, k: nat, rest: string, good: bool) {
    if good then r.Ok? && r.v == a && r.rest == rest && Sync(env, st, r.st, c, k + NumResults(a))
    else r.Fail? || r.v != a
  }

  // ----- leaves -----

  lemma {:induction false} ConstBack(env: Env, st: SerState, a: Arg, t: Type, c: nat, k: nat, ps: State, rest: string)
    requires TargetOk(env.tgt) && TypeOk(|env.tgt.pointees|, t) && ValidArg(env.tgt, a, t) && a.ConstArg?
    requires Sync(env, st, ps, c, k) && Delim(rest)
    ensures Back(env, st, ParseArg(env.tgt, t, ps, Hex(a.val) + rest), a, c, k, rest, true)
  {
    ArgIsInt(env.tgt, t, ps, a.val, rest);
    IntBack(env.tgt, t, ps, a.val, rest);
  }

  lemma {:induction false} SpecialIndex(v: U64, n: nat)
    requires Neg64(v) < n
    ensures Neg64(Neg64(v) % n) == v
  {
    assert Neg64(v) % n == Neg64(v);
  }

  /** A number where a type expects one. */
  lemma {:induction false} ArgIsInt(tgt: Target, t: Type, ps: State, n: U64, rest: string)
    requires TargetOk(tgt) && TypeOk(|tgt.pointees|, t)
    ensures ParseArg(tgt, t, ps, Hex(n) + rest) == ParseImpl(tgt, t, ps, Hex(n) + rest) ==
        ParseInt(tgt, t, ps, Hex(n) + rest)
  {
    assert (Hex(n) + rest)[0] == '0';
  }

  lemma {:induction false} IntBack(tgt: Target, t: Type, ps: State, n: U64, rest: string)
    requires TargetOk(tgt) && TypeOk(|tgt.pointees|, t) && Delim(rest)
    ensures HasBits(t) ==>
      ParseInt(tgt, t, ps, Hex(n) + rest) ==
      Made(ps, ConstArg(t, if t.com.dir == DirOut && !t.LenT? then DefaultVal(t) else n), rest)
    ensures t.ResourceT? ==> ParseInt(tgt, t, ps, Hex(n) + rest) == Made(ps, ResultArg(t, None, 0, 0, n), rest)
    ensures (t.PtrT? || t.VmaT?) && Neg64(n) < |tgt.special| ==>
      ParseInt(tgt, t, ps, Hex(n) + rest) == Made(ps, PointerArg(t, n, 0, None), rest)
  {
    NumberOfHex(n, rest);
    if Neg64(n) < |tgt.special| { SpecialIndex(n, |tgt.special|); }
  }

  lemma {:induction false} SpecialBack(env: Env, st: SerState, a: Arg, t: Type, c: nat, k: nat, ps: State, rest: string)
    requires TargetOk(env.tgt) && TypeOk(|env.tgt.pointees|, t) && ValidArg(env.tgt, a, t)
    requires a.PointerArg? && IsSpecial(a)
    requires Sync(env, st, ps, c, k) && Delim(rest)
    ensures Back(env, st, ParseArg(env.tgt, t, ps, Hex(a.address) + rest), a, c, k, rest, true)
  {
    ArgIsInt(env.tgt, t, ps, a.address, rest);
    IntBack(env.tgt, t, ps, a.address, rest);
  }

  lemma {:induction false} OpBack(op: char, n: U64, s: string)
    requires Ends(s) && s[0] != op && Ends([op])
    ensures ParseOp(op, (if n != 0 then [op] + Dec(n) else "") + s) == Token(n, s)
  {
    if n != 0 {
      NumberOfDec(n, s);
      Assoc([op], Dec(n), s);
      EatOf(op, Dec(n) + s);
    } else {
      assert "" + s == s;
    }
  }

  function RefTail(opDiv: U64, opAdd: U64, rest: string): string {
    (if opDiv != 0 then "/" + Dec(opDiv) else "") + ((if opAdd != 0 then "+" + Dec(opAdd) else "") + rest)
  }

  lemma {:induction false} RefReads(tgt: Target, t: Type, ps: State, s: string, id: string, s1: string, div: U64,
      s2: string, add: U64,
                                    s3: string)
    requires TargetOk(tgt) && TypeOk(|tgt.pointees|, t)
    requires Ident(s) == Token(id, s1) && ParseOp('/', s1) == Token(div, s2) && ParseOp('+', s2) == Token(add, s3)
    ensures ParseRef(tgt, t, ps, s) == Made(ps, MakeRef(tgt, t, ps.vars, id, div, add), s3)
  {
  }

  lemma {:induction false} RefTokens(id: nat, opDiv: U64, opAdd: U64, rest: string, add: string)
    requires Delim(rest) && add == (if opAdd != 0 then "+" + Dec(opAdd) else "") + rest
    ensures Ident(Name(id) + RefTail(opDiv, opAdd, rest)) == Token(Name(id), RefTail(opDiv, opAdd, rest))
    ensures ParseOp('/', RefTail(opDiv, opAdd, rest)) == Token(opDiv, add)
    ensures ParseOp('+', add) == Token(opAdd, rest)
  {
    OpBack('+', opAdd, rest);
    OpBack('/', opDiv, add);
    IdentOf(Name(id), RefTail(opDiv, opAdd, rest));
  }

  lemma {:induction false} RefBack(tgt: Target, t: Type, ps: State, id: nat, opDiv: U64, opAdd: U64, rest: string)
    requires TargetOk(tgt) && TypeOk(|tgt.pointees|, t) && Delim(rest)
    ensures ParseRef(tgt, t, ps, Name(id) + RefTail(opDiv, opAdd, rest)) ==
            Made(ps, MakeRef(tgt, t, ps.vars, Name(id), opDiv, opAdd), rest)
  {
    var tail := RefTail(opDiv, opAdd, rest);
    var add := (if opAdd != 0 then "+" + Dec(opAdd) else "") + rest;
    RefTokens(id, opDiv, opAdd, rest, add);
    RefReads(tgt, t, ps, Name(id) + tail, Name(id), tail, opDiv, add, opAdd, rest);
  }

  lemma {:induction false} NameBack(id: nat, s: string)
    requires s != "" && !IsBlank(s[0])
    ensures ParseName("<" + (Name(id) + ("=" + (">" + s)))) == Token(Name(id), s)
  {
    EatOf('<', Name(id) + ("=" + (">" + s)));
    IdentOf(Name(id), "=" + (">" + s));
    EatOf('=', ">" + s);
    EatOf('>', s);
  }

  /** The value or the reference of a result, without a name in front. */
  function ResultText(st: SerState, a: Arg): (s: string)
    requires a.ResultArg?
    ensures s != "" && (s[0] == '0' || s[0] == 'r')
  {
    if a.ref.None? then Hex(a.val) else PrintRef(st, a.ref.value, a.opDiv, a.opAdd)
  }

  /** What the parser makes of it. */
  function ResultRead(tgt: Target, ps: State, st: SerState, a: Arg): Arg
    requires TargetOk(tgt) && TypeOk(|tgt.pointees|, a.typ) && a.ResultArg?
    requires a.ref.Some? ==> a.ref.value in st.vars
  {
    if a.ref.None? then ResultArg(a.typ, None, 0, 0, a.val)
    else MakeRef(tgt, a.typ, ps.vars, Name(st.vars[a.ref.value]), a.opDiv, a.opAdd)
  }

  lemma {:induction false} RefText(st: SerState, l: Loc, opDiv: U64, opAdd: U64, rest: string)
    requires l in st.vars
    ensures PrintRef(st, l, opDiv, opAdd) + rest == Name(st.vars[l]) + RefTail(opDiv, opAdd, rest)
  {
    var div := if opDiv != 0 then "/" + Dec(opDiv) else "";
    var add := if opAdd != 0 then "+" + Dec(opAdd) else "";
    Assoc(Name(st.vars[l]) + div, add, rest);
    Assoc(Name(st.vars[l]), div, add + rest);
  }

  lemma {:induction false} ImplIsRef(tgt: Target, t: Type, ps: State, s: string)
    requires TargetOk(tgt) && TypeOk(|tgt.pointees|, t) && s != "" && s[0] == 'r'
    ensures ParseImpl(tgt, t, ps, s) == ParseRef(tgt, t, ps, s)
  {
  }

  lemma {:induction false} ResultBodyBack(tgt: Target, st: SerState, a: Arg, ps: State, rest: string)
    requires TargetOk(tgt) && a.ResultArg? && a.typ.ResourceT? && TypeOk(|tgt.pointees|, a.typ) && Delim(rest)
    requires a.ref.Some? ==> a.ref.value in st.vars
    ensures ParseImpl(tgt, a.typ, ps, ResultText(st, a) + rest) == Made(ps, ResultRead(tgt, ps, st, a), rest)
  {
    if a.ref.None? {
      ArgIsInt(tgt, a.typ, ps, a.val, rest);
      IntBack(tgt, a.typ, ps, a.val, rest);
    } else {
      RefText(st, a.ref.value, a.opDiv, a.opAdd, rest);
      RefBack(tgt, a.typ, ps, st.vars[a.ref.value], a.opDiv, a.opAdd, rest);
      var s := ResultText(st, a) + rest;
      assert s[0] == Name(st.vars[a.ref.value])[0];
      ImplIsRef(tgt, a.typ, ps, s);
    }
  }

  lemma {:induction false} NamedText(name: string, body: string, rest: string)
    ensures "<" + name + "=>" + body + rest == "<" + (name + ("=" + (">" + (body + rest))))
  {
  }

  /** A result with a name in front. */
  lemma {:induction false} NamedBack(tgt: Target, t: Type, ps: State, id: nat, body: string, rest: string)
    requires TargetOk(tgt) && TypeOk(|tgt.pointees|, t) && body != "" && !IsBlank(body[0])
    ensures ParseArg(tgt, t, ps, "<" + Name(id) + "=>" + body + rest) ==
            Bind(Name(id), Loc(ps.call, ps.next), ParseImpl(tgt, t, ps, body + rest))
  {
    NamedText(Name(id), body, rest);
    NameBack(id, body + rest);
  }

  lemma {:induction false} PlainResult(tgt: Target, t: Type, ps: State, body: string, rest: string)
    requires TargetOk(tgt) && TypeOk(|tgt.pointees|, t) && body != "" && body[0] != '<'
    ensures ParseArg(tgt, t, ps, body + rest) == ParseImpl(tgt, t, ps, body + rest)
  {
  }

  /** The reference of a result is in the variables, its own name is new. */
  ghost predicate RefKnown(st: SerState, vars: map<string, Loc>, a: Arg, l: Loc)
    requires a.ResultArg?
  {
    a.ref.Some? ==>
      && a.ref.value in st.vars
      && var name := Name(st.vars[a.ref.value]);
         if a.ref.value == l then name !in vars else name in vars && vars[name] == a.ref.value
  }

  lemma {:induction false} ReadsSame(env: Env, st: SerState, a: Arg, c: nat, k: nat, ps: State)
    requires TargetOk(env.tgt) && a.ResultArg? && a.typ.ResourceT? && TypeOk(|env.tgt.pointees|, a.typ)
    requires RefKnown(st, ps.vars, a, Loc(c, k))
    ensures ResultRead(env.tgt, ps, st, a) == a <==> Canonical(env, c, a, k)
  {
  }

  lemma {:induction false} RefIsKnown(env: Env, st: SerState, a: Arg, c: nat, k: nat, ps: State)
    requires a.ResultArg? && LinksOk(a, c, k) && Refs(a) <= env.used && Sync(env, st, ps, c, k)
    ensures RefKnown(if Loc(c, k) in env.used then AllocVar(st, Loc(c, k)) else st, ps.vars, a, Loc(c, k))
  {
    if a.ref.Some? {
      assert a.ref.value in Refs(a);
    }
  }

  lemma {:induction false} UnnamedBack(env: Env, st: SerState, a: Arg, c: nat, k: nat, ps: State, rest: string)
    requires TargetOk(env.tgt) && a.ResultArg? && a.typ.ResourceT? && TypeOk(|env.tgt.pointees|, a.typ)
    requires RefKnown(st, ps.vars, a, Loc(c, k)) && Loc(c, k) !in env.used
    requires Sync(env, st, ps, c, k) && Delim(rest)
    ensures Back(env, st, ParseArg(env.tgt, a.typ, ps, ResultText(st, a) + rest), a, c, k, rest,
        Canonical(env, c, a, k))
  {
    ResultBodyBack(env.tgt, st, a, ps, rest);
    PlainResult(env.tgt, a.typ, ps, ResultText(st, a), rest);
    ReadsSame(env, st, a, c, k, ps);
    UnnamedSync(env, st, c, k, ps);
    BackMade(env, st, ParseArg(env.tgt, a.typ, ps, ResultText(st, a) + rest), ResultRead(env.tgt, ps, st, a), a, c, k,
        ps, rest,
             Canonical(env, c, a, k));
  }

  /** A result without a variable leaves what is known as it is. */
  lemma {:induction false} UnnamedSync(env: Env, st: SerState, c: nat, k: nat, ps: State)
    requires Loc(c, k) !in env.used && Sync(env, st, ps, c, k)
    ensures Sync(env, st, ps.(next := ps.next + 1), c, k + 1)
  {
    assert Known(env.used, st, c, k + 1);
  }

  lemma {:induction false} BackMade(env: Env, st: SerState, r: Parsed<Arg>, x: Arg, a: Arg, c: nat, k: nat, ps: State,
                                    rest: string, good: bool)
    requires r == Made(ps, x, rest) && NumResults(x) == 1 && NumResults(a) == 1 && (x == a <==> good)
    requires Sync(env, st, ps.(next := ps.next + 1), c, k + 1)
    ensures Back(env, st, r, a, c, k, rest, good)
  {
  }

  lemma {:induction false} SyncNamed(env: Env, st: SerState, c: nat, k: nat, ps: State)
    requires Sync(env, st, ps, c, k)
    ensures Sync(env, AllocVar(st, Loc(c, k)), State(ps.vars[Name(st.next) := Loc(c, k)], c, k + 1), c, k + 1)
  {
    AllocAgrees(st, ps.vars, c, k);
  }

  lemma {:induction false} BackFrom(env: Env, st: SerState, r: Parsed<Arg>, x: Arg, a: Arg, c: nat, k: nat, ps: State,
                                    rest: string, good: bool)
    requires r == Ok(x, ps, rest) && Sync(env, st, ps, c, k + NumResults(a)) && (x == a <==> good)
    ensures Back(env, st, r, a, c, k, rest, good)
  {
  }

  lemma {:induction false} NamedResultBack(env: Env, st: SerState, a: Arg, c: nat, k: nat, ps: State, rest: string)
    requires TargetOk(env.tgt) && a.ResultArg? && a.typ.ResourceT? && TypeOk(|env.tgt.pointees|, a.typ)
    requires RefKnown(AllocVar(st, Loc(c, k)), ps.vars, a, Loc(c, k))
    requires Sync(env, st, ps, c, k) && Delim(rest)
    ensures var st1 := AllocVar(st, Loc(c, k));
      Back(env, st1, ParseArg(env.tgt, a.typ, ps, "<" + Name(st.next) + "=>" + ResultText(st1, a) + rest), a, c,
          k, rest,
           Canonical(env, c, a, k))
  {
    var st1 := AllocVar(st, Loc(c, k));
    var x, body := ResultRead(env.tgt, ps, st1, a), ResultText(st1, a);
    ResultBodyBack(env.tgt, st1, a, ps, rest);
    NamedReads(env.tgt, a.typ, ps, st.next, body, rest, x, c, k);
    ReadsSame(env, st1, a, c, k, ps);
    SyncNamed(env, st, c, k, ps);
    BackFrom(env, st1, ParseArg(env.tgt, a.typ, ps, "<" + Name(st.next) + "=>" + body + rest), x, a, c, k,
             State(ps.vars[Name(st.next) := Loc(c, k)], c, k + 1), rest, Canonical(env, c, a, k));
  }

  lemma {:induction false} NamedReads(tgt: Target, t: Type, ps: State, id: nat, body: string, rest: string, x: Arg,
      c: nat, k: nat)
    requires TargetOk(tgt) && TypeOk(|tgt.pointees|, t) && body != "" && !IsBlank(body[0])
    requires ParseImpl(tgt, t, ps, body + rest) == Made(ps, x, rest) && x.ResultArg? && ps.call == c && ps.next == k
    ensures ParseArg(tgt, t, ps, "<" + Name(id) + "=>" + body + rest) ==
        Ok(x, State(ps.vars[Name(id) := Loc(c, k)], c, k + 1), rest)
  {
    NamedBack(tgt, t, ps, id, body, rest);
  }

  lemma {:induction false} ResultBack(env: Env, st: SerState, a: Arg, c: nat, k: nat, ps: State, rest: string)
    requires TargetOk(env.tgt) && a.ResultArg? && a.typ.ResourceT? && TypeOk(|env.tgt.pointees|, a.typ)
    requires LinksOk(a, c, k) && Refs(a) <= env.used
    requires Sync(env, st, ps, c, k) && Delim(rest)
    ensures var pr := PrintResult(env.used, st, a, c, k);
      Back(env, pr.st, ParseArg(env.tgt, a.typ, ps, pr.text + rest), a, c, k, rest, Canonical(env, c, a, k))
  {
    var pr := PrintResult(env.used, st, a, c, k);
    RefIsKnown(env, st, a, c, k, ps);
    if Loc(c, k) in env.used {
      NamedResultBack(env, st, a, c, k, ps, rest);
      assert pr.text == "<" + Name(st.next) + "=>" + ResultText(AllocVar(st, Loc(c, k)), a);
    } else {
      UnnamedBack(env, st, a, c, k, ps, rest);
      assert pr.text == ResultText(st, a);
    }
  }

  // ----- memory ranges -----

  lemma {:induction false} RoundDownAligned(x: nat, page: nat)
    requires page > 0
    ensures RoundDown(x, page) % page == 0
  {
    assert x == page * (x / page) + x % page;
    DivModUnique(RoundDown(x, page), page, x / page, 0);
  }

  lemma {:induction false} RoundUpSame(x: nat, page: nat)
    requires page > 0 && x % page == 0
    ensures RoundDown(x + page - 1, page) == x
  {
    assert x == page * (x / page) + x % page;
    DivModUnique(x + page - 1, page, x / page, page - 1);
  }

  lemma {:induction false} SubAligned(m: nat, v: nat, page: nat)
    requires page > 0 && m % page == 0 && v % page == 0 && v <= m
    ensures (m - v) % page == 0
  {
    var a, b := m / page, v / page;
    assert m == page * a && v == page * b;
    assert m - v == page * (a - b);
    assert a < b ==> page * (a - b) <= 0 - page;
    DivModUnique(m - v, page, a - b, 0);
  }

  lemma {:induction false} MemAligned(tgt: Target)
    requires tgt.pageSize > 0
    ensures MaxMem(tgt) % tgt.pageSize == 0
  {
    DivModUnique(MaxMem(tgt), tgt.pageSize, tgt.numPages, 0);
  }

  lemma {:induction false} ClampAligned(tgt: Target, addr: U64, size: U64)
    requires TargetOk(tgt)
    ensures var r := ClampRange(tgt, addr, size); r.0 % tgt.pageSize == 0 && r.1 % tgt.pageSize == 0
  {
    var page := tgt.pageSize;
    MemAligned(tgt);
    DivModUnique(page, page, 1, 0);
    RoundDownAligned((size + page - 1) % TWO64, page);
    RoundDownAligned(addr, page);
    SubAligned(MaxMem(tgt), ClampRange(tgt, addr, size).1, page);
  }

  lemma {:induction false} PageFits(tgt: Target)
    requires tgt.numPages > 0
    ensures tgt.pageSize <= MaxMem(tgt)
  {
    assert tgt.numPages * tgt.pageSize == (tgt.numPages - 1) * tgt.pageSize + tgt.pageSize;
  }

  lemma {:induction false} ClampSame(tgt: Target, addr: U64, size: U64)
    requires TargetOk(tgt) && addr % tgt.pageSize == 0 && size % tgt.pageSize == 0
    requires size > 0 && addr + size <= MaxMem(tgt)
    ensures ClampRange(tgt, addr, size) == (addr as nat, size as nat)
  {
    var page := tgt.pageSize;
    var down, up := RoundDown(addr, page), RoundDown((size + page - 1) % TWO64, page);
    assert tgt.numPages > 0;
    PageFits(tgt);
    RoundUpSame(size, page);
    NoWrap(size + page - 1);
    ClampParts(tgt, addr, size, down, up);
    ClampedSame(MaxMem(tgt), page, down, up);
  }

  lemma {:induction false} NoWrap(x: nat)
    requires x < TWO64
    ensures x % TWO64 == x
  {
  }

  lemma {:induction false} ClampParts(tgt: Target, addr: U64, size: U64, down: nat, up: nat)
    requires TargetOk(tgt) && down == RoundDown(addr, tgt.pageSize)
    requires up == RoundDown((size + tgt.pageSize - 1) % TWO64, tgt.pageSize)
    ensures ClampRange(tgt, addr, size) == Clamped(MaxMem(tgt), tgt.pageSize, down, up)
  {
  }

  lemma {:induction false} ClampedSame(max: nat, page: nat, a: nat, rounded: nat)
    requires rounded > 0 && a + rounded <= max
    ensures Clamped(max, page, a, rounded) == (a, rounded)
  {
  }

  /** The parts of a printed address, with the text after it. */
  function AddrText(addr: U64, size: U64, s: string): string {
    "(" + (Hex((ADDR_BASE + addr) % TWO64) + AddrRest(size, s))
  }

  function AddrRest(size: U64, s: string): string {
    (if size != 0 then "/" + Hex(size) else "") + (")" + s)
  }

  lemma {:induction false} AddrSplits(addr: U64, size: U64, s: string)
    ensures PrintAddr(addr, size) + s == "&" + AddrText(addr, size, s)
  {
    var hex := Hex((ADDR_BASE + addr) % TWO64);
    var range := if size != 0 then "/" + Hex(size) else "";
    FiveParts("&(", hex, range, ")", s);
    assert "&(" == "&" + "(";
    Assoc("&", "(", hex + (range + (")" + s)));
  }

  lemma {:induction false} FiveParts(a: string, b: string, c: string, d: string, e: string)
    ensures a + b + c + d + e == a + (b + (c + (d + e)))
  {
  }

  function RangeRead(tgt: Target, addr: U64, size: U64): (nat, nat)
    requires TargetOk(tgt)
  {
    if size == 0 then (addr as nat, 0) else ClampRange(tgt, addr, size)
  }

  lemma {:induction false} RangeBack(tgt: Target, addr: U64, size: U64, s: string)
    requires TargetOk(tgt)
    ensures ParseRange(tgt, addr, AddrRest(size, s)) == Token(RangeRead(tgt, addr, size), ")" + s)
  {
    if size != 0 {
      NumberOfHex(size, ")" + s);
      Assoc("/", Hex(size), ")" + s);
      EatOf('/', Hex(size) + (")" + s));
    } else {
      assert "" + (")" + s) == ")" + s;
    }
  }

  lemma {:induction false} BaseReads(s: string, s1: string, n: U64, rest: string)
    requires Eat('(', s) == Token((), s1) && Number(s1) == Token(n, rest) && n >= ADDR_BASE
    ensures ParseBase(s) == Token(n - ADDR_BASE, rest)
  {
  }

  lemma {:induction false} BaseBack(addr: U64, s: string)
    requires addr < ADDR_BASE && Ends(s)
    ensures ParseBase("(" + (Hex((ADDR_BASE + addr) % TWO64) + s)) == Token(addr, s)
  {
    BaseSum(addr);
    BaseOf(addr, (ADDR_BASE + addr) % TWO64, s);
  }

  lemma {:induction false} BaseSum(addr: U64)
    requires addr < ADDR_BASE
    ensures (ADDR_BASE + addr) % TWO64 == ADDR_BASE + addr
  {
  }

  lemma {:induction false} BaseOf(addr: U64, n: U64, s: string)
    requires n == ADDR_BASE + addr && Ends(s)
    ensures ParseBase("(" + (Hex(n) + s)) == Token(addr, s)
  {
    var s1 := Hex(n) + s;
    HexStarts(n, s);
    EatOf('(', s1);
    NumberOfHex(n, s);
    BaseReads("(" + s1, s1, n, s);
  }

  lemma {:induction false} HexStarts(n: U64, s: string)
    ensures Hex(n) + s != "" && !IsBlank((Hex(n) + s)[0])
  {
    assert (Hex(n) + s)[0] == Hex(n)[0];
  }

  lemma {:induction false} AddrBack(tgt: Target, addr: U64, size: U64, s: string)
    requires TargetOk(tgt) && addr < MaxMem(tgt) && s != "" && !IsBlank(s[0])
    ensures ParseAddr(tgt, AddrText(addr, size, s)) == Token(RangeRead(tgt, addr, size), s)
  {
    BaseBack(addr, AddrRest(size, s));
    RangeBack(tgt, addr, size, s);
    EatOf(')', s);
  }

  lemma {:induction false} NilBack(rest: string)
    requires Delim(rest)
    ensures ParseNil("nil" + rest) == Token((), rest)
  {
    assert "nil" + rest == "n" + ("i" + ("l" + rest));
    EatOf('n', "i" + ("l" + rest));
    EatOf('i', "l" + rest);
    EatOf('l', rest);
  }

  lemma {:induction false} ArgIsPointer(tgt: Target, t: Type, ps: State, s: string)
    requires TargetOk(tgt) && TypeOk(|tgt.pointees|, t)
    ensures ParseArg(tgt, t, ps, "&" + s) == ParsePointer(tgt, t, ps, "&" + s)
  {
    assert ("&" + s)[0] == '&';
  }

  lemma {:induction false} VmaTail(tgt: Target, t: Type, ps: State, addr: nat, size: nat, rest: string)
    requires TargetOk(tgt) && addr < TWO64 && size < TWO64 && Delim(rest)
    ensures ParseVma(tgt, t, ps, addr, size, "=nil" + rest) == Made(ps, MakeVma(tgt, t, addr, size), rest)
  {
    assert "=nil" + rest == "=" + ("nil" + rest);
    EatOf('=', "nil" + rest);
    NilBack(rest);
  }

  lemma {:induction false} PointerReads(tgt: Target, t: Type, ps: State, addr: U64, size: U64, s: string)
    requires TargetOk(tgt) && TypeOk(|tgt.pointees|, t) && (t.VmaT? || t.PtrT?)
    requires addr < MaxMem(tgt) && s != "" && !IsBlank(s[0])
    ensures var r := RangeRead(tgt, addr, size);
      ParseArg(tgt, t, ps, PrintAddr(addr, size) + s) ==
      if t.VmaT? then ParseVma(tgt, t, ps, r.0, r.1, s)
      else PointTo(t, r.0, ParsePart(tgt, tgt.pointees[t.pointee], ps, s))
  {
    AddrSplits(addr, size, s);
    ArgIsPointer(tgt, t, ps, AddrText(addr, size, s));
    assert AddrText(addr, size, s)[0] == '(';
    EatOf('&', AddrText(addr, size, s));
    AddrBack(tgt, addr, size, s);
  }

  /** A range that was forced into memory lies in memory. */
  lemma {:induction false} ClampInside(tgt: Target, addr: U64, size: U64)
    requires TargetOk(tgt)
    ensures var r := ClampRange(tgt, addr, size); r.0 + r.1 <= MaxMem(tgt)
  {
  }

  /** What validate accepts comes back if it is page-aligned and lies in memory: a range that
      wraps around is accepted, and cut. */
  lemma {:induction false} VmaSame(tgt: Target, t: Type, addr: U64, size: U64)
    requires TargetOk(tgt) && addr < MaxMem(tgt)
    ensures var r := RangeRead(tgt, addr, size);
      r.0 < TWO64 && r.1 < TWO64 &&
      (MakeVma(tgt, t, r.0, r.1) == PointerArg(t, addr, size, None) <==>
       addr % tgt.pageSize == 0 && size % tgt.pageSize == 0 && addr + size <= MaxMem(tgt))
  {
    var r := RangeRead(tgt, addr, size);
    if size != 0 {
      ClampAligned(tgt, addr, size);
      ClampInside(tgt, addr, size);
    }
    RoundDownAligned(r.0, tgt.pageSize);
    if addr % tgt.pageSize == 0 && size % tgt.pageSize == 0 && size != 0 && addr + size <= MaxMem(tgt) {
      ClampSame(tgt, addr, size);
    }
  }

  /** A page-aligned range that validate accepts and the parser cuts: its end wraps around to 0. */
  lemma {:induction false} WrappingRange(env: Env, t: Type, c: nat, k: nat)
    requires TargetOk(env.tgt) && t.VmaT? && env.tgt.numPages >= 2 && TWO64 % env.tgt.pageSize == 0
    ensures var page := env.tgt.pageSize;
      var a := PointerArg(t, page, TWO64 - page, None);
      && ValidArg(env.tgt, a, t) && a.address % page == 0 && a.vmaSize % page == 0 && !Canonical(env, c, a, k)
  {
    var page := env.tgt.pageSize;
    assert env.tgt.numPages * page == (env.tgt.numPages - 2) * page + page + page;
    SubAligned(TWO64, page, page);
    DivModUnique(page, page, 1, 0);
  }

  lemma {:induction false} VmaBack(env: Env, st: SerState, t: Type, addr: U64, size: U64, c: nat, k: nat, ps: State,
      rest: string)
    requires TargetOk(env.tgt) && t.VmaT?
    requires var a := PointerArg(t, addr, size, None); !IsSpecial(a) && PointerOk(env.tgt, a)
    requires Sync(env, st, ps, c, k) && Delim(rest)
    ensures var a := PointerArg(t, addr, size, None);
      Back(env, st, ParseArg(env.tgt, t, ps, PrintAddr(addr, size) + "=nil" + rest), a, c, k, rest,
          Canonical(env, c, a, k))
  {
    Assoc(PrintAddr(addr, size), "=nil", rest);
    var r := RangeRead(env.tgt, addr, size);
    VmaSame(env.tgt, t, addr, size);
    PointerReads(env.tgt, t, ps, addr, size, "=nil" + rest);
    VmaTail(env.tgt, t, ps, r.0, r.1, rest);
    var a := PointerArg(t, addr, size, None);
    var x := MakeVma(env.tgt, t, r.0, r.1);
    BackFrom(env, st, Made(ps, x, rest), x, a, c, k, ps, rest, Canonical(env, c, a, k));
  }

  // ----- data -----

  lemma {:induction false} ResizeShown(shown: seq<Byte>, data: seq<Byte>, n: nat)
    requires |shown| <= |data| && shown + Zeros(|data| - |shown|) == data && n <= |data|
    ensures Resize(shown, n) == data[..n]
  {
  }

  lemma {:induction false} SizeBack(tgt: Target, shown: bool, n: U64, rest: string)
    requires TargetOk(tgt) && Delim(rest)
    ensures ParseSize(tgt, (if shown then "/" + Dec(n) else "") + rest) ==
            Token(if shown then Some(if n > MaxMem(tgt) then MaxMem(tgt) else n) else None, rest)
  {
    if shown {
      NumberOfDec(n, rest);
      Assoc("/", Dec(n), rest);
      EatOf('/', Dec(n) + rest);
      SizeReads(tgt, "/" + (Dec(n) + rest), Dec(n) + rest, n, rest);
    } else {
      assert "" + rest == rest;
    }
  }

  lemma {:induction false} SizeReads(tgt: Target, s: string, s1: string, n: U64, rest: string)
    requires TargetOk(tgt) && s != "" && s[0] == '/' && Eat('/', s) == Token((), s1) && Number(s1) == Token(n, rest)
    ensures ParseSize(tgt, s) == Token(Some(if n > MaxMem(tgt) then MaxMem(tgt) else n), rest)
  {
  }

  lemma {:induction false} ArgIsString(tgt: Target, t: Type, ps: State, s: string)
    requires TargetOk(tgt) && TypeOk(|tgt.pointees|, t) && s != "" && (s[0] == '\'' || s[0] == '"')
    ensures ParseArg(tgt, t, ps, s) == ParseString(tgt, t, ps, s)
  {
  }

  /** A literal with its optional size. */
  lemma {:induction false} StringReads(tgt: Target, t: Type, ps: State, data: seq<Byte>, readable: bool, shown: bool,
      n: U64,
                                       rest: string)
    requires TargetOk(tgt) && t.BufferT? && Delim(rest)
    ensures ParseArg(tgt, t, ps, PrintData(data, readable) + (if shown then "/" + Dec(n) else "") + rest) ==
      Made(ps, MakeData(t, data, if !t.com.varlen then t.com.size
                                 else if shown then if n > MaxMem(tgt) then MaxMem(tgt) else n
                                 else |data|), rest)
  {
    var tail := (if shown then "/" + Dec(n) else "") + rest;
    Assoc(PrintData(data, readable), if shown then "/" + Dec(n) else "", rest);
    DataRoundTrip(data, readable, tail);
    SizeBack(tgt, shown, n, rest);
    ArgIsString(tgt, t, ps, PrintData(data, readable) + tail);
  }

  lemma {:induction false} OutDataBack(env: Env, st: SerState, a: Arg, t: Type, c: nat, k: nat, ps: State, rest: string)
    requires TargetOk(env.tgt) && ValidArg(env.tgt, a, t) && a.DataArg? && t.com.dir == DirOut
    requires Sync(env, st, ps, c, k) && Delim(rest)
    ensures Back(env, st, ParseArg(env.tgt, t, ps, PrintDataArg(a) + rest), a, c, k, rest, Canonical(env, c, a, k))
  {
    var n := Size(a);
    assert PrintData([], false) == "\"\"";
    assert PrintDataArg(a) == PrintData([], false) + ("/" + Dec(n));
    StringReads(env.tgt, t, ps, [], false, true, n, rest);
    var x := MakeData(t, [], if !t.com.varlen then t.com.size else if n > MaxMem(env.tgt) then MaxMem(env.tgt) else n);
    BackFrom(env, st, Made(ps, x, rest), x, a, c, k, ps, rest, Canonical(env, c, a, k));
  }

  lemma {:induction false} InDataBack(env: Env, st: SerState, a: Arg, t: Type, c: nat, k: nat, ps: State, rest: string)
    requires TargetOk(env.tgt) && ValidArg(env.tgt, a, t) && a.DataArg? && t.com.dir != DirOut
    requires Sync(env, st, ps, c, k) && Delim(rest)
    ensures Back(env, st, ParseArg(env.tgt, t, ps, PrintDataArg(a) + rest), a, c, k, rest, Canonical(env, c, a, k))
  {
    var shown, m := ShownData(t, a.data), MaxMem(env.tgt);
    var sized := t.com.varlen && |shown| != |a.data|;
    StringReads(env.tgt, t, ps, shown, ReadableType(t), sized, |a.data|, rest);
    var n := if sized && |a.data| > m then m else |a.data|;
    ResizeShown(shown, a.data, n);
    assert a.data[..|a.data|] == a.data;
    var x := MakeData(t, shown, n);
    BackFrom(env, st, Made(ps, x, rest), x, a, c, k, ps, rest, Canonical(env, c, a, k));
  }

  // ----- trees -----

  lemma {:induction false} PrintStarts(env: Env, st: SerState, a: Arg, c: nat, k: nat)
    ensures Starts(PrintArg(env, st, a, c, k).text)
  {
  }

  lemma {:induction false} MoreStarts(env: Env, st: SerState, args: seq<Arg>, n: nat, c: nat, k: nat)
    requires n <= |args|
    ensures var s := PrintItems(env, st, args, n, true, c, k).text; s == "" || s[0] == ','
    decreases n
  {
    if n > 0 && IsPad(args[0].typ) {
      MoreStarts(env, st, args[1..], n - 1, c, k + NumResults(args[0]));
    }
  }

  /** Nothing from ordinal `k` up to `k2` is used, so the same variables are known there. */
  lemma {:induction false} SyncSkips(env: Env, st: SerState, ps: State, c: nat, k: nat, n: nat)
    requires Sync(env, st, ps, c, k)
    requires forall j :: k <= j < k + n ==> Loc(c, j) !in env.used
    ensures Sync(env, st, ps.(next := k + n), c, k + n)
  {
    forall l | l in env.used && Before(l, c, k + n) ensures l in st.vars {
      assert l == Loc(l.call, l.idx);
    }
  }

  lemma {:induction false} SyncOverDefault(env: Env, st: SerState, ps: State, c: nat, k: nat, a: Arg)
    requires Sync(env, st, ps, c, k) && IsDefault(env.used, c, a, k)
    ensures Sync(env, st, ps.(next := k + NumResults(a)), c, k + NumResults(a))
  {
    forall j | k <= j < k + NumResults(a) ensures Loc(c, j) !in env.used { DefaultUnused(env.used, c, a, k, j); }
    SyncSkips(env, st, ps, c, k, NumResults(a));
  }

  lemma {:induction false} SyncOverDefaults(env: Env, st: SerState, ps: State, c: nat, k: nat, args: seq<Arg>)
    requires Sync(env, st, ps, c, k) && AllDefault(env.used, c, args, k)
    ensures Sync(env, st, ps.(next := k + NumResultsSeq(args)), c, k + NumResultsSeq(args))
  {
    forall j | k <= j < k + NumResultsSeq(args)
      ensures Loc(c, j) !in env.used
    {
      DefaultsUnused(env.used, c, args, k, j);
    }
    SyncSkips(env, st, ps, c, k, NumResultsSeq(args));
  }

  /** What is asked of an argument and of the state it is printed and read in. */
  ghost predicate Ready(env: Env, st: SerState, a: Arg, t: Type, c: nat, k: nat, ps: State) {
    && TargetOk(env.tgt) && TypeOk(|env.tgt.pointees|, t) && ValidArg(env.tgt, a, t)
    && LinksOk(a, c, k) && Refs(a) <= env.used
    && Sync(env, st, ps, c, k)
  }

  /** The text of a part with its `=`, or nothing. */
  function PartText(env: Env, st: SerState, a: Arg, c: nat, k: nat): Printed {
    if Elided(env, c, a, k) then Printed("", st)
    else
      var part := PrintArg(env, st, a, c, k);
      Printed("=" + part.text, part.st)
  }

  lemma {:induction false} AttachText(head: string, env: Env, st: SerState, a: Arg, c: nat, k: nat, rest: string)
    ensures var pr := Attach(head, st, Elided(env, c, a, k), PrintArg(env, st, a, c, k));
      pr.text + rest == head + (PartText(env, st, a, c, k).text + rest) && pr.st == PartText(env, st, a, c, k).st
  {
    var part := PrintArg(env, st, a, c, k);
    if Elided(env, c, a, k) {
      assert "" + rest == rest;
    } else {
      Assoc(head, "=", part.text);
      Assoc(head, "=" + part.text, rest);
    }
  }

  lemma {:induction false} ElidedBack(env: Env, st: SerState, a: Arg, t: Type, c: nat, k: nat, ps: State, rest: string)
    requires Ready(env, st, a, t, c, k, ps) && Delim(rest) && IsDefault(env.used, c, a, k)
    ensures Back(env, st, ParsePart(env.tgt, t, ps, rest), a, c, k, rest, true)
  {
    DefaultIsDefaultArg(env.tgt, env.used, c, a, k, t);
    SyncOverDefault(env, st, ps, c, k, a);
    BackFrom(env, st, Made(ps, a, rest), a, a, c, k, ps.(next := k + NumResults(a)), rest, true);
  }

  lemma {:induction false} PartReads(tgt: Target, t: Type, ps: State, s: string)
    requires TargetOk(tgt) && TypeOk(|tgt.pointees|, t) && s != "" && !IsBlank(s[0])
    ensures ParsePart(tgt, t, ps, "=" + s) == ParseArg(tgt, t, ps, s)
  {
    EatOf('=', s);
  }

  /** The text of a part is parsed as nothing, or as that of the argument. */
  lemma {:induction false} PartParse(env: Env, st: SerState, a: Arg, t: Type, c: nat, k: nat, ps: State, rest: string)
    requires TargetOk(env.tgt) && TypeOk(|env.tgt.pointees|, t)
    ensures ParsePart(env.tgt, t, ps, PartText(env, st, a, c, k).text + rest) ==
            if Elided(env, c, a, k) then ParsePart(env.tgt, t, ps, rest)
            else ParseArg(env.tgt, t, ps, PrintArg(env, st, a, c, k).text + rest)
  {
    if Elided(env, c, a, k) {
      assert "" + rest == rest;
    } else {
      var text := PrintArg(env, st, a, c, k).text;
      PrintStarts(env, st, a, c, k);
      PartReads(env.tgt, t, ps, text + rest);
      Assoc("=", text, rest);
    }
  }

  lemma {:induction false} PartBack(env: Env, st: SerState, a: Arg, t: Type, c: nat, k: nat, ps: State, rest: string)
    requires Ready(env, st, a, t, c, k, ps) && Delim(rest)
    ensures var pr := PartText(env, st, a, c, k);
      Back(env, pr.st, ParsePart(env.tgt, t, ps, pr.text + rest), a, c, k, rest,
          Elided(env, c, a, k) || Canonical(env, c, a, k))
    decreases a, 2
  {
    PartParse(env, st, a, t, c, k, ps, rest);
    if Elided(env, c, a, k) {
      ElidedBack(env, st, a, t, c, k, ps, rest);
    } else {
      ArgBack(env, st, a, t, c, k, ps, rest);
    }
  }

  lemma {:induction false} PointBack(env: Env, st: SerState, r: Parsed<Arg>, t: Type, addr: U64, a: Arg, c: nat, k: nat,
                                     rest: string, good: bool)
    requires Back(env, st, r, a, c, k, rest, good)
    ensures Back(env, st, PointTo(t, addr, r), PointerArg(t, addr, 0, Some(a)), c, k, rest, good)
  {
  }

  lemma {:induction false} PointerBack(env: Env, st: SerState, a: Arg, t: Type, c: nat, k: nat, ps: State, rest: string)
    requires Ready(env, st, a, t, c, k, ps) && a.PointerArg? && a.res.Some? && Delim(rest)
    ensures var pr := PrintArg(env, st, a, c, k);
      Back(env, pr.st, ParseArg(env.tgt, t, ps, pr.text + rest), a, c, k, rest, Canonical(env, c, a, k))
    decreases a, 0
  {
    var addr, inner := a.address, a.res.value;
    var pr := PartText(env, st, inner, c, k);
    var pointee := env.tgt.pointees[t.pointee];
    AttachText(PrintAddr(addr, 0), env, st, inner, c, k, rest);
    PartBack(env, st, inner, pointee, c, k, ps, rest);
    assert pr.text + rest != "" && !IsBlank((pr.text + rest)[0]) by { assert pr.text == "" || pr.text[0] == '='; }
    PointerReads(env.tgt, t, ps, addr, 0, pr.text + rest);
    PointBack(env, pr.st, ParsePart(env.tgt, pointee, ps, pr.text + rest), t, addr, inner, c, k, rest,
              Elided(env, c, inner, k) || Canonical(env, c, inner, k));
  }

  /** A pointer to nothing is read as a pointer to a default. */
  lemma {:induction false} NilPointerBack(env: Env, st: SerState, a: Arg, t: Type, c: nat, k: nat, ps: State,
      rest: string)
    requires Ready(env, st, a, t, c, k, ps) && a.PointerArg? && t.PtrT? && a.res.None? && !IsSpecial(a) && Delim(rest)
    ensures var r := ParseArg(env.tgt, t, ps, PrintAddr(a.address, 0) + "=nil" + rest); r.Fail? || r.v != a
  {
    var addr := a.address;
    Assoc(PrintAddr(addr, 0), "=nil", rest);
    PointerReads(env.tgt, t, ps, addr, 0, "=nil" + rest);
  }

  lemma {:induction false} ChooseBack(env: Env, st: SerState, r: Parsed<Arg>, t: Type, a: Arg, c: nat, k: nat,
                                      rest: string, good: bool)
    requires Back(env, st, r, a, c, k, rest, good)
    ensures Back(env, st, Choose(t, r), UnionArg(t, a), c, k, rest, good)
  {
  }

  lemma {:induction false} OptionReads(tgt: Target, t: Type, ps: State, name: string, s: string)
    requires TargetOk(tgt) && TypeOk(|tgt.pointees|, t) && t.UnionT? && IsIdent(name) && Ends(s)
    requires FindOption(t.options, name).Some?
    ensures TypeOk(|tgt.pointees|, FindOption(t.options, name).value)
    ensures ParseArg(tgt, t, ps, "@" + name + s) == Choose(t, ParsePart(tgt, FindOption(t.options, name).value, ps, s))
  {
    Assoc("@", name, s);
    assert ("@" + (name + s))[0] == '@';
    assert !IsBlank((name + s)[0]);
    EatOf('@', name + s);
    IdentOf(name, s);
    ArgIsUnion(tgt, t, ps, "@" + (name + s));
    ChoiceReads(tgt, t, ps, "@" + (name + s), name + s, name, s);
  }

  lemma {:induction false} ArgIsUnion(tgt: Target, t: Type, ps: State, s: string)
    requires TargetOk(tgt) && TypeOk(|tgt.pointees|, t) && t.UnionT? && s != "" && s[0] == '@'
    ensures ParseArg(tgt, t, ps, s) == ParseUnion(tgt, t, ps, s)
  {
  }

  lemma {:induction false} ChoiceReads(tgt: Target, t: Type, ps: State, s: string, s1: string, name: string,
      rest: string)
    requires TargetOk(tgt) && TypeOk(|tgt.pointees|, t) && t.UnionT? && FindOption(t.options, name).Some?
    requires Eat('@', s) == Token((), s1) && Ident(s1) == Token(name, rest)
    ensures TypeOk(|tgt.pointees|, FindOption(t.options, name).value)
    ensures ParseUnion(tgt, t, ps, s) == Choose(t, ParsePart(tgt, FindOption(t.options, name).value, ps, rest))
  {
    OptionOk(|tgt.pointees|, t.options, name);
  }

  lemma {:induction false} OptionReady(env: Env, st: SerState, a: Arg, t: Type, c: nat, k: nat, ps: State)
    requires Ready(env, st, a, t, c, k, ps) && a.UnionArg?
    ensures t.UnionT? && FindOption(t.options, a.option.typ.com.field).Some? && IsIdent(a.option.typ.com.field)
    ensures Ready(env, st, a.option, FindOption(t.options, a.option.typ.com.field).value, c, k, ps)
  {
    OptionOk(|env.tgt.pointees|, t.options, a.option.typ.com.field);
  }

  lemma {:induction false} PartEnds(env: Env, st: SerState, a: Arg, c: nat, k: nat, rest: string)
    ensures Delim(rest) ==> Ends(PartText(env, st, a, c, k).text + rest)
  {
    var text := PartText(env, st, a, c, k).text;
    if text == "" {
      assert text + rest == rest;
    } else {
      assert text[0] == '=';
    }
  }

  lemma {:induction false} UnionText(env: Env, st: SerState, t: Type, option: Arg, c: nat, k: nat, rest: string,
      name: string, s: string)
    requires name == option.typ.com.field && s == PartText(env, st, option, c, k).text + rest
    ensures PrintArg(env, st, UnionArg(t, option), c, k).text + rest == "@" + name + s
    ensures PrintArg(env, st, UnionArg(t, option), c, k).st == PartText(env, st, option, c, k).st
    ensures Delim(rest) ==> Ends(s)
  {
    AttachText("@" + name, env, st, option, c, k, rest);
    PartEnds(env, st, option, c, k, rest);
  }

  lemma {:induction false} UnionReads(env: Env, st: SerState, t: Type, option: Arg, o: Type, c: nat, k: nat, ps: State,
      rest: string)
    requires TargetOk(env.tgt) && TypeOk(|env.tgt.pointees|, t) && t.UnionT? && TypeOk(|env.tgt.pointees|, o)
    requires Delim(rest)
    requires IsIdent(option.typ.com.field) && FindOption(t.options, option.typ.com.field) == Some(o)
    ensures ParseArg(env.tgt, t, ps, PrintArg(env, st, UnionArg(t, option), c, k).text + rest) ==
            Choose(t, ParsePart(env.tgt, o, ps, PartText(env, st, option, c, k).text + rest))
    ensures PrintArg(env, st, UnionArg(t, option), c, k).st == PartText(env, st, option, c, k).st
  {
    var name, s := option.typ.com.field, PartText(env, st, option, c, k).text + rest;
    UnionText(env, st, t, option, c, k, rest, name, s);
    OptionReads(env.tgt, t, ps, name, s);
  }

  lemma {:induction false} UnionBack(env: Env, st: SerState, a: Arg, t: Type, c: nat, k: nat, ps: State, rest: string)
    requires Ready(env, st, a, t, c, k, ps) && a.UnionArg? && Delim(rest)
    ensures var pr := PrintArg(env, st, a, c, k);
      Back(env, pr.st, ParseArg(env.tgt, t, ps, pr.text + rest), a, c, k, rest, Canonical(env, c, a, k))
    decreases a, 0
  {
    var option := a.option;
    OptionReady(env, st, a, t, c, k, ps);
    var o := FindOption(t.options, option.typ.com.field).value;
    var pr := PartText(env, st, option, c, k);
    UnionReads(env, st, t, option, o, c, k, ps, rest);
    PartBack(env, st, option, o, c, k, ps, rest);
    ChooseBack(env, pr.st, ParsePart(env.tgt, o, ps, pr.text + rest), t, option, c, k, rest,
               Elided(env, c, option, k) || Canonical(env, c, option, k));
    assert a == UnionArg(t, option);
  }

  lemma {:induction false} ArgBack(env: Env, st: SerState, a: Arg, t: Type, c: nat, k: nat, ps: State, rest: string)
    requires Ready(env, st, a, t, c, k, ps) && Delim(rest)
    ensures var pr := PrintArg(env, st, a, c, k);
      Back(env, pr.st, ParseArg(env.tgt, t, ps, pr.text + rest), a, c, k, rest, Canonical(env, c, a, k))
    decreases a, 1
  {
    match a
    case ConstArg(_, _) => ConstBack(env, st, a, t, c, k, ps, rest);
    case PointerArg(_, address, vmaSize, res) =>
      if IsSpecial(a) { SpecialBack(env, st, a, t, c, k, ps, rest); }
      else if res.Some? { PointerBack(env, st, a, t, c, k, ps, rest); }
      else if t.VmaT? { VmaBack(env, st, t, address, vmaSize, c, k, ps, rest); }
      else { NilPointerBack(env, st, a, t, c, k, ps, rest); }
    case DataArg(_, _, _) =>
      if t.com.dir == DirOut { OutDataBack(env, st, a, t, c, k, ps, rest); }
      else { InDataBack(env, st, a, t, c, k, ps, rest); }
    case GroupArg(_, _) => GroupBack(env, st, a, t, c, k, ps, rest);
    case UnionArg(_, _) => UnionBack(env, st, a, t, c, k, ps, rest);
    case ResultArg(_, _, _, _, _) => ResultBack(env, st, a, c, k, ps, rest);
  }

  // ----- members -----

  /** The members after the first `n` are default. */
  predicate TailDefault(used: set<Loc>, c: nat, args: seq<Arg>, n: nat, k: nat)
    requires n <= |args|
    decreases args
  {
    if n == 0 then AllDefault(used, c, args, k)
    else TailDefault(used, c, args[1..], n - 1, k + NumResults(args[0]))
  }

  lemma {:induction false} TrimTail(used: set<Loc>, args: seq<Arg>, c: nat, k: nat)
    ensures TailDefault(used, c, args, Trim(used, args, c, k), k)
    decreases args
  {
    if args != [] {
      TrimTail(used, args[1..], c, k + NumResults(args[0]));
    }
  }

  lemma {:induction false} FullTail(used: set<Loc>, args: seq<Arg>, c: nat, k: nat)
    ensures TailDefault(used, c, args, |args|, k)
    decreases args
  {
    if args != [] {
      FullTail(used, args[1..], c, k + NumResults(args[0]));
    }
  }

  predicate IsClose(c: char) {
    c == ')' || c == '}' || c == ']'
  }

  /** Where the parser stands: at a member, or after one. */
  function Resume(sep: bool, close: char, s: string): Token<()> {
    if sep then AfterItem(close, s) else Token((), s)
  }

  ghost predicate ReadyItems(env: Env, st: SerState, args: seq<Arg>, n: nat, sh: Shape, c: nat, k: nat, ps: State) {
    && TargetOk(env.tgt) && ShapeOk(|env.tgt.pointees|, sh) && ValidSeq(env.tgt, args, sh)
    && LinksOkSeq(args, c, k) && RefsSeq(args) <= env.used
    && Sync(env, st, ps, c, k)
    && n <= |args| && TailDefault(env.used, c, args, n, k) && (sh.Elems? ==> n == |args|)
  }

  ghost predicate ItemsBack(env: Env, st: SerState, r: Parsed<seq<Arg>>, args: seq<Arg>, c: nat, k: nat, rest: string,
      good: bool) {
    if good then r.Ok? && r.v == args && r.rest == rest && Sync(env, st, r.st, c, k + NumResultsSeq(args))
    else r.Fail? || r.v != args
  }

  /** The rest of a list of members, as the parser meets it. */
  ghost predicate ListBack(env: Env, st: SerState, args: seq<Arg>, n: nat, sep: bool, sh: Shape, close: char, c: nat,
      k: nat,
                           ps: State, tail: string)
    requires env.tgt.pageSize > 0 && n <= |args| && TargetOk(env.tgt) && ShapeOk(|env.tgt.pointees|, sh)
  {
    var pr := PrintItems(env, st, args, n, sep, c, k);
    var at := Resume(sep, close, pr.text + ([close] + tail));
    at.Token? && ItemsBack(env, pr.st, ParseItems(env.tgt, sh, close, ps, at.rest), args, c, k, tail,
        CanonicalSeq(env, c, args, n, k))
  }

  lemma {:induction false} NoItems(env: Env, st: SerState, args: seq<Arg>, sep: bool, sh: Shape, close: char, c: nat,
      k: nat,
                                   ps: State, tail: string)
    requires ReadyItems(env, st, args, 0, sh, c, k, ps) && IsClose(close) && (tail != "" ==> !IsBlank(tail[0]))
    ensures ListBack(env, st, args, 0, sep, sh, close, c, k, ps, tail)
  {
    var s := [close] + tail;
    assert "" + s == s && s[1..] == tail;
    DefaultMembers(env.tgt, env.used, c, args, k, sh);
    SyncOverDefaults(env, st, ps, c, k, args);
  }

  lemma {:induction false} PadStep(tgt: Target, sh: Shape, close: char, ps: State, s: string)
    requires TargetOk(tgt) && ShapeOk(|tgt.pointees|, sh) && Head(sh).Some? && IsPad(Head(sh).value) && s != ""
    ensures ParseItems(tgt, sh, close, ps, s) ==
        Push(ConstArg(Head(sh).value, 0), ParseItems(tgt, Tail(sh), close, ps, s))
  {
    if s[0] == close {
      var t := sh.types[0];
      assert TypeOk(|tgt.pointees|, t);
      assert DefaultArg(tgt, t) == ConstArg(t, 0);
      assert Fill(tgt, sh) == [ConstArg(t, 0)] + Fill(tgt, Tail(sh));
      assert Fill(tgt, sh)[1..] == Fill(tgt, Tail(sh));
      assert NumResultsSeq(Fill(tgt, sh)) == NumResultsSeq(Fill(tgt, Tail(sh)));
      assert ParseItems(tgt, Tail(sh), close, ps, s).v == Fill(tgt, Tail(sh));
    }
  }

  lemma {:induction false} PadItem(env: Env, st: SerState, args: seq<Arg>, n: nat, sh: Shape, close: char, c: nat,
      k: nat,
                                   ps: State, tail: string)
    requires ReadyItems(env, st, args, n, sh, c, k, ps) && n > 0 && IsPad(args[0].typ)
    requires ListBack(env, st, args[1..], n - 1, true, Tail(sh), close, c, k, ps, tail)
    ensures ListBack(env, st, args, n, true, sh, close, c, k, ps, tail)
  {
    assert ValidArg(env.tgt, args[0], Head(sh).value);
    assert args[0].ConstArg? && NumResults(args[0]) == 0;
    var pr := PrintItems(env, st, args, n, true, c, k);
    assert pr == PrintItems(env, st, args[1..], n - 1, true, c, k);
    var at := Resume(true, close, pr.text + ([close] + tail));
    var r := ParseItems(env.tgt, Tail(sh), close, ps, at.rest);
    if at.rest != "" { PadStep(env.tgt, sh, close, ps, at.rest); }
    PadPushed(env, pr.st, r, args, c, k, tail, CanonicalSeq(env, c, args[1..], n - 1, k));
  }

  lemma {:induction false} PadPushed(env: Env, st: SerState, r: Parsed<seq<Arg>>, args: seq<Arg>, c: nat, k: nat,
      rest: string, good: bool)
    requires args != [] && NumResults(args[0]) == 0 && ItemsBack(env, st, r, args[1..], c, k, rest, good)
    ensures ItemsBack(env, st, Push(args[0], r), args, c, k, rest, good)
  {
    assert args == [args[0]] + args[1..];
  }

  /** The first member of a list, and the text after it. */
  function FirstText(env: Env, st: SerState, args: seq<Arg>, c: nat, k: nat): Printed
    requires args != []
  {
    PrintArg(env, st, args[0], c, k)
  }

  function RestText(env: Env, st: SerState, args: seq<Arg>, n: nat, c: nat, k: nat): Printed
    requires 0 < n <= |args|
  {
    PrintItems(env, FirstText(env, st, args, c, k).st, args[1..], n - 1, true, c, k + NumResults(args[0]))
  }

  lemma {:induction false} RestDelim(env: Env, st: SerState, args: seq<Arg>, n: nat, close: char, c: nat, k: nat,
      tail: string)
    requires 0 < n <= |args| && IsClose(close)
    ensures Delim(RestText(env, st, args, n, c, k).text + ([close] + tail))
  {
    var more := RestText(env, st, args, n, c, k).text;
    MoreStarts(env, FirstText(env, st, args, c, k).st, args[1..], n - 1, c, k + NumResults(args[0]));
    if more != "" { assert (more + ([close] + tail))[0] == more[0]; }
  }

  lemma {:induction false} ResumeAt(sep: bool, close: char, one: string, more: string, end: string)
    requires IsClose(close) && Starts(one)
    ensures Resume(sep, close, (if sep then ", " else "") + (one + more) + end) == Token((), one + (more + end))
  {
    Assoc(one, more, end);
    if sep {
      Separated(close, one + (more + end));
      Assoc(", ", one + more, end);
    } else {
      assert "" + (one + more) == one + more;
    }
  }

  /** The text of a list whose first member is printed. */
  lemma {:induction false} ItemText(env: Env, st: SerState, args: seq<Arg>, n: nat, sep: bool, close: char, c: nat,
      k: nat,
                                    tail: string)
    requires 0 < n <= |args| && !IsPad(args[0].typ) && IsClose(close)
    ensures Resume(sep, close, PrintItems(env, st, args, n, sep, c, k).text + ([close] + tail)) ==
            Token((), FirstText(env, st, args, c, k).text + (RestText(env, st, args, n, c, k).text + ([close] + tail)))
    ensures PrintItems(env, st, args, n, sep, c, k).st == RestText(env, st, args, n, c, k).st
  {
    PrintStarts(env, st, args[0], c, k);
    ResumeAt(sep, close, FirstText(env, st, args, c, k).text, RestText(env, st, args, n, c, k).text, [close] + tail);
  }

  lemma {:induction false} Separated(close: char, s: string)
    requires IsClose(close) && s != "" && !IsBlank(s[0])
    ensures AfterItem(close, ", " + s) == Token((), s)
  {
    assert (", " + s)[1..] == " " + s;
    assert (" " + s)[1..] == s;
    assert SkipWs(" " + s) == SkipWs(s) == s;
  }

  /** One member read, and the rest of the list after it. */
  lemma {:induction false} ItemStep(tgt: Target, sh: Shape, close: char, ps: State, s: string, a: Parsed<Arg>)
    requires TargetOk(tgt) && ShapeOk(|tgt.pointees|, sh) && Head(sh).Some? && !IsPad(Head(sh).value)
    requires Starts(s) && IsClose(close) && a == ParseArg(tgt, Head(sh).value, ps, s)
    ensures ParseItems(tgt, sh, close, ps, s) ==
      if a.Fail? || AfterItem(close, a.rest).Err? then Fail
      else Push(a.v, ParseItems(tgt, Tail(sh), close, a.st, AfterItem(close, a.rest).rest))
  {
  }

  lemma {:induction false} ReadyHead(env: Env, st: SerState, args: seq<Arg>, n: nat, sh: Shape, c: nat, k: nat,
      ps: State)
    requires ReadyItems(env, st, args, n, sh, c, k, ps) && n > 0
    ensures Head(sh).Some? && args[0].typ == Head(sh).value && Ready(env, st, args[0], Head(sh).value, c, k, ps)
  {
    assert ValidArg(env.tgt, args[0], Head(sh).value);
    assert TypeOk(|env.tgt.pointees|, Head(sh).value);
  }

  lemma {:induction false} ReadyTail(env: Env, st: SerState, args: seq<Arg>, n: nat, sh: Shape, c: nat, k: nat,
      ps: State,
                                     st1: SerState, ps1: State)
    requires ReadyItems(env, st, args, n, sh, c, k, ps) && n > 0 && Sync(env, st1, ps1, c, k + NumResults(args[0]))
    ensures Head(sh).Some? && ReadyItems(env, st1, args[1..], n - 1, Tail(sh), c, k + NumResults(args[0]), ps1)
  {
  }

  lemma {:induction false} PushBack(env: Env, st: SerState, r: Parsed<seq<Arg>>, args: seq<Arg>, c: nat, k: nat,
      rest: string,
                                    good: bool)
    requires args != [] && ItemsBack(env, st, r, args[1..], c, k + NumResults(args[0]), rest, good)
    ensures ItemsBack(env, st, Push(args[0], r), args, c, k, rest, good)
  {
    assert args == [args[0]] + args[1..];
  }

  lemma {:induction false} PushOther(env: Env, st: SerState, a: Arg, r: Parsed<seq<Arg>>, args: seq<Arg>, c: nat,
      k: nat, rest: string)
    requires args != [] && a != args[0]
    ensures ItemsBack(env, st, Push(a, r), args, c, k, rest, false)
  {
    if r.Ok? { assert ([a] + r.v)[0] == a; }
  }

  lemma {:induction false} TailOk(n: nat, sh: Shape)
    requires ShapeOk(n, sh) && Head(sh).Some?
    ensures ShapeOk(n, Tail(sh))
  {
  }

  lemma {:induction false} CanonicalStep(env: Env, args: seq<Arg>, n: nat, c: nat, k: nat)
    requires env.tgt.pageSize > 0 && 0 < n <= |args| && !IsPad(args[0].typ) && Canonical(env, c, args[0], k)
    ensures CanonicalSeq(env, c, args, n, k) == CanonicalSeq(env, c, args[1..], n - 1, k + NumResults(args[0]))
  {
  }

  /** What the parser makes of the members after the first comes to the text `tail` as it should. */
  ghost predicate RestCame(env: Env, st: SerState, args: seq<Arg>, n: nat, sh: Shape, close: char, c: nat, k: nat,
      ps1: State,
                           tail: string, s: string)
    requires TargetOk(env.tgt) && 0 < n <= |args| && Head(sh).Some? && ShapeOk(|env.tgt.pointees|, Tail(sh))
  {
    && AfterItem(close, s).Token?
    && ItemsBack(env, RestText(env, st, args, n, c, k).st,
         ParseItems(env.tgt, Tail(sh), close, ps1, AfterItem(close, s).rest),
                 args[1..], c, k + NumResults(args[0]), tail,
                     CanonicalSeq(env, c, args[1..], n - 1, k + NumResults(args[0])))
  }

  /** The first member comes back: so does the list if the rest does. */
  lemma {:induction false} GoodItem(env: Env, st: SerState, args: seq<Arg>, n: nat, sep: bool, sh: Shape, close: char,
                                    c: nat, k: nat, ps: State, tail: string, ps1: State, s: string)
    requires TargetOk(env.tgt) && ShapeOk(|env.tgt.pointees|, sh) && Head(sh).Some? && IsClose(close)
    requires 0 < n <= |args| && args[0].typ == Head(sh).value && !IsPad(args[0].typ) && Canonical(env, c, args[0], k)
    requires s == RestText(env, st, args, n, c, k).text + ([close] + tail)
    requires ParseArg(env.tgt, Head(sh).value, ps, FirstText(env, st, args, c, k).text + s) == Ok(args[0], ps1, s)
    requires ShapeOk(|env.tgt.pointees|, Tail(sh))
    ensures RestCame(env, st, args, n, sh, close, c, k, ps1, tail, s) ==>
        ListBack(env, st, args, n, sep, sh, close, c, k, ps, tail)
  {
    if RestCame(env, st, args, n, sh, close, c, k, ps1, tail, s) {
      var more := RestText(env, st, args, n, c, k);
      var good := CanonicalSeq(env, c, args[1..], n - 1, k + NumResults(args[0]));
      var r := ParseItems(env.tgt, Tail(sh), close, ps1, AfterItem(close, s).rest);
      FirstReads(env, st, args, sh, close, c, k, ps, s, ps1);
      PushBack(env, more.st, r, args, c, k, tail, good);
      CanonicalStep(env, args, n, c, k);
      ListFrom(env, st, args, n, sep, sh, close, c, k, ps, tail, Push(args[0], r), good);
    }
  }

  /** Reading a list whose first member comes back. */
  lemma {:induction false} FirstReads(env: Env, st: SerState, args: seq<Arg>, sh: Shape, close: char, c: nat, k: nat,
      ps: State,
                                      s: string, ps1: State)
    requires TargetOk(env.tgt) && ShapeOk(|env.tgt.pointees|, sh) && Head(sh).Some? && !IsPad(Head(sh).value)
    requires IsClose(close)
    requires args != [] && AfterItem(close, s).Token?
    requires ParseArg(env.tgt, Head(sh).value, ps, FirstText(env, st, args, c, k).text + s) == Ok(args[0], ps1, s)
    ensures ShapeOk(|env.tgt.pointees|, Tail(sh))
    ensures ParseItems(env.tgt, sh, close, ps, FirstText(env, st, args, c, k).text + s) ==
            Push(args[0], ParseItems(env.tgt, Tail(sh), close, ps1, AfterItem(close, s).rest))
  {
    var one := FirstText(env, st, args, c, k).text;
    TailOk(|env.tgt.pointees|, sh);
    PrintStarts(env, st, args[0], c, k);
    assert (one + s)[0] == one[0];
    ItemStep(env.tgt, sh, close, ps, one + s, Ok(args[0], ps1, s));
  }

  /** From what the parser makes of the text after `Resume` to the list. */
  lemma {:induction false} ListFrom(env: Env, st: SerState, args: seq<Arg>, n: nat, sep: bool, sh: Shape, close: char,
                                    c: nat, k: nat, ps: State, tail: string, r: Parsed<seq<Arg>>, good: bool)
    requires TargetOk(env.tgt) && ShapeOk(|env.tgt.pointees|, sh) && IsClose(close)
    requires 0 < n <= |args| && !IsPad(args[0].typ) && good == CanonicalSeq(env, c, args, n, k)
    requires r == ParseItems(env.tgt, sh, close, ps,
                             FirstText(env, st, args, c, k).text +
                                 (RestText(env, st, args, n, c, k).text + ([close] + tail)))
    requires ItemsBack(env, RestText(env, st, args, n, c, k).st, r, args, c, k, tail, good)
    ensures ListBack(env, st, args, n, sep, sh, close, c, k, ps, tail)
  {
    ItemText(env, st, args, n, sep, close, c, k, tail);
  }

  /** The first member does not come back: neither does the list. */
  lemma {:induction false} BadItem(env: Env, st: SerState, args: seq<Arg>, n: nat, sep: bool, sh: Shape, close: char,
                                   c: nat, k: nat, ps: State, tail: string)
    requires TargetOk(env.tgt) && ShapeOk(|env.tgt.pointees|, sh) && Head(sh).Some? && IsClose(close)
    requires 0 < n <= |args| && args[0].typ == Head(sh).value && !IsPad(args[0].typ) && !Canonical(env, c, args[0], k)
    requires var s := RestText(env, st, args, n, c, k).text + ([close] + tail);
      var a := ParseArg(env.tgt, Head(sh).value, ps, FirstText(env, st, args, c, k).text + s);
      a.Fail? || a.v != args[0]
    ensures ListBack(env, st, args, n, sep, sh, close, c, k, ps, tail)
  {
    var one, more := FirstText(env, st, args, c, k), RestText(env, st, args, n, c, k);
    var s := more.text + ([close] + tail);
    var a := ParseArg(env.tgt, Head(sh).value, ps, one.text + s);
    ItemText(env, st, args, n, sep, close, c, k, tail);
    PrintStarts(env, st, args[0], c, k);
    assert (one.text + s)[0] == one.text[0];
    ItemStep(env.tgt, sh, close, ps, one.text + s, a);
    if a.Ok? && AfterItem(close, a.rest).Token? {
      PushOther(env, more.st, a.v, ParseItems(env.tgt, Tail(sh), close, a.st, AfterItem(close, a.rest).rest), args, c,
          k, tail);
    }
  }

  lemma {:induction false} MembersBack(env: Env, st: SerState, args: seq<Arg>, n: nat, sep: bool, sh: Shape,
      close: char,
                                       c: nat, k: nat, ps: State, tail: string)
    requires ReadyItems(env, st, args, n, sh, c, k, ps) && IsClose(close) && (tail != "" ==> !IsBlank(tail[0]))
    requires !sep && args != [] ==> !IsPad(args[0].typ)
    ensures ListBack(env, st, args, n, sep, sh, close, c, k, ps, tail)
    decreases args, 1, 0
  {
    if n == 0 {
      NoItems(env, st, args, sep, sh, close, c, k, ps, tail);
    } else {
      ReadyHead(env, st, args, n, sh, c, k, ps);
      if IsPad(args[0].typ) {
        PadHasNoResults(env.tgt, args[0], Head(sh).value);
        ReadyTail(env, st, args, n, sh, c, k, ps, st, ps);
        MembersBack(env, st, args[1..], n - 1, true, Tail(sh), close, c, k, ps, tail);
        PadItem(env, st, args, n, sh, close, c, k, ps, tail);
      } else {
        MemberBack(env, st, args, n, sep, sh, close, c, k, ps, tail);
      }
    }
  }

  lemma {:induction false} PadHasNoResults(tgt: Target, a: Arg, t: Type)
    requires ValidArg(tgt, a, t) && IsPad(t)
    ensures NumResults(a) == 0
  {
  }

  lemma {:induction false} FirstBack(env: Env, st: SerState, args: seq<Arg>, n: nat, sh: Shape, close: char, c: nat,
      k: nat, ps: State,
                                     s: string, tail: string)
    requires ReadyItems(env, st, args, n, sh, c, k, ps) && IsClose(close) && n > 0
    requires s == RestText(env, st, args, n, c, k).text + ([close] + tail)
    ensures TypeOk(|env.tgt.pointees|, args[0].typ) && Head(sh) == Some(args[0].typ)
    ensures Back(env, FirstText(env, st, args, c, k).st,
        ParseArg(env.tgt, args[0].typ, ps, FirstText(env, st, args, c, k).text + s),
                 args[0], c, k, s, Canonical(env, c, args[0], k))
    decreases args, 0, 0
  {
    ReadyHead(env, st, args, n, sh, c, k, ps);
    RestDelim(env, st, args, n, close, c, k, tail);
    ArgBack(env, st, args[0], args[0].typ, c, k, ps, s);
  }

  lemma {:induction false} MemberBack(env: Env, st: SerState, args: seq<Arg>, n: nat, sep: bool, sh: Shape, close: char,
                                      c: nat, k: nat, ps: State, tail: string)
    requires ReadyItems(env, st, args, n, sh, c, k, ps) && IsClose(close) && (tail != "" ==> !IsBlank(tail[0]))
    requires n > 0 && !IsPad(args[0].typ)
    ensures ListBack(env, st, args, n, sep, sh, close, c, k, ps, tail)
    decreases args, 0, 1
  {
    var one, s := FirstText(env, st, args, c, k), RestText(env, st, args, n, c, k).text + ([close] + tail);
    FirstBack(env, st, args, n, sh, close, c, k, ps, s, tail);
    var a := ParseArg(env.tgt, args[0].typ, ps, one.text + s);
    if Canonical(env, c, args[0], k) {
      BackGives(env, one.st, a, args[0], c, k, s);
      ReadyTail(env, st, args, n, sh, c, k, ps, one.st, a.st);
      TailOk(|env.tgt.pointees|, sh);
      GoodItem(env, st, args, n, sep, sh, close, c, k, ps, tail, a.st, s);
      RestBack(env, st, args, n, sh, close, c, k, one.st, a.st, tail, s);
    } else {
      BadItem(env, st, args, n, sep, sh, close, c, k, ps, tail);
    }
  }

  lemma {:induction false} RestBack(env: Env, st: SerState, args: seq<Arg>, n: nat, sh: Shape, close: char, c: nat,
      k: nat,
                                    st1: SerState, ps1: State, tail: string, s: string)
    requires TargetOk(env.tgt) && 0 < n <= |args| && Head(sh).Some? && st1 == FirstText(env, st, args, c, k).st
    requires ReadyItems(env, st1, args[1..], n - 1, Tail(sh), c, k + NumResults(args[0]), ps1)
    requires IsClose(close) && (tail != "" ==> !IsBlank(tail[0]))
    requires s == RestText(env, st, args, n, c, k).text + ([close] + tail)
    ensures RestCame(env, st, args, n, sh, close, c, k, ps1, tail, s)
    decreases args, 0, 0
  {
    MembersBack(env, st1, args[1..], n - 1, true, Tail(sh), close, c, k + NumResults(args[0]), ps1, tail);
  }

  lemma {:induction false} BackGives(env: Env, st: SerState, r: Parsed<Arg>, a: Arg, c: nat, k: nat, rest: string)
    requires Back(env, st, r, a, c, k, rest, true)
    ensures r == Ok(a, r.st, rest) && Sync(env, st, r.st, c, k + NumResults(a))
  {
  }

  lemma {:induction false} CollectBack(env: Env, st: SerState, r: Parsed<seq<Arg>>, t: Type, inner: seq<Arg>, c: nat,
      k: nat,
                                       rest: string, good: bool)
    requires ItemsBack(env, st, r, inner, c, k, rest, good)
    ensures Back(env, st, Collect(t, r), GroupArg(t, inner), c, k, rest, good)
  {
  }

  lemma {:induction false} GroupReads(tgt: Target, t: Type, ps: State, open: char, close: char, s: string)
    requires TargetOk(tgt) && TypeOk(|tgt.pointees|, t) && s != "" && !IsBlank(s[0])
    requires (t.StructT? && open == '{' && close == '}') || (t.ArrayT? && open == '[' && close == ']')
    ensures ParseArg(tgt, t, ps, [open] + s) == Collect(t, ParseItems(tgt, ShapeOf(t), close, ps, s))
  {
    assert ([open] + s)[0] == open;
    EatOf(open, s);
    assert ParseArg(tgt, t, ps, [open] + s) == ParseGroup(tgt, t, open, close, ps, [open] + s);
  }

  lemma {:induction false} GroupText(env: Env, st: SerState, a: Arg, c: nat, k: nat, open: char, close: char,
      rest: string)
    requires a.GroupArg? && [open, close] == if a.typ.StructT? then "{}" else "[]"
    ensures var body := PrintItems(env, st, a.inner, Shown(env, a.typ, a.inner, c, k), false, c, k);
      var pr := PrintArg(env, st, a, c, k);
      pr.text + rest == [open] + (body.text + ([close] + rest)) && pr.st == body.st
  {
    var body := PrintItems(env, st, a.inner, Shown(env, a.typ, a.inner, c, k), false, c, k);
    assert open == [open, close][0] && close == [open, close][1];
    Assoc([open] + body.text, [close], rest);
    Assoc([open], body.text, [close] + rest);
  }

  lemma {:induction false} ItemsStart(env: Env, st: SerState, args: seq<Arg>, n: nat, c: nat, k: nat, s: string)
    requires n <= |args| && (args != [] ==> !IsPad(args[0].typ)) && Delim(s)
    ensures var text := PrintItems(env, st, args, n, false, c, k).text + s; text != "" && !IsBlank(text[0])
  {
    if n > 0 {
      PrintStarts(env, st, args[0], c, k);
    }
  }

  lemma {:induction false} GroupReady(env: Env, st: SerState, a: Arg, t: Type, c: nat, k: nat, ps: State)
    requires Ready(env, st, a, t, c, k, ps) && a.GroupArg?
    ensures t.StructT? || t.ArrayT?
    ensures ReadyItems(env, st, a.inner, Shown(env, t, a.inner, c, k), ShapeOf(t), c, k, ps)
    ensures a.inner != [] ==> !IsPad(a.inner[0].typ)
  {
    TrimTail(env.used, a.inner, c, k);
    FullTail(env.used, a.inner, c, k);
    assert ValidSeq(env.tgt, a.inner, ShapeOf(t));
  }

  lemma {:induction false} GroupBack(env: Env, st: SerState, a: Arg, t: Type, c: nat, k: nat, ps: State, rest: string)
    requires Ready(env, st, a, t, c, k, ps) && a.GroupArg? && Delim(rest)
    ensures var pr := PrintArg(env, st, a, c, k);
      Back(env, pr.st, ParseArg(env.tgt, t, ps, pr.text + rest), a, c, k, rest, Canonical(env, c, a, k))
    decreases a, 0
  {
    GroupReady(env, st, a, t, c, k, ps);
    var inner, sh, n := a.inner, ShapeOf(t), Shown(env, t, a.inner, c, k);
    var open, close := if t.StructT? then '{' else '[', if t.StructT? then '}' else ']';
    MembersBack(env, st, inner, n, false, sh, close, c, k, ps, rest);
    ItemsStart(env, st, inner, n, c, k, [close] + rest);
    var body := PrintItems(env, st, inner, n, false, c, k);
    var s := body.text + ([close] + rest);
    GroupText(env, st, a, c, k, open, close, rest);
    GroupReads(env.tgt, t, ps, open, close, s);
    CollectBack(env, body.st, ParseItems(env.tgt, sh, close, ps, s), t, inner, c, k, rest,
        CanonicalSeq(env, c, inner, n, k));
  }
}
