/**
  The serializer as the source runs it: a buffer that grows, and variables handed out while it
  does (prog/encoding.go:35-197).
 */
module TextSerializer {
  import opened Ir
  import opened Defaults
  import opened TextLex
  import opened TextPrint
  import opened TextRoundTrip

  /** The loop that drops trailing zeros but one. */
  method Strip(data0: seq<Byte>) returns (data: seq<Byte>)
    ensures data == StripZeros(data0)
  {
    data := data0;
    while |data| >= 2 && data[|data| - 1] == 0 && data[|data| - 2] == 0
      invariant StripZeros(data) == StripZeros(data0)
    {
      data := data[..|data| - 1];
    }
  }

  /** The last member that must be printed is the last one that is not default. */
  lemma {:induction false} TrimIs(used: set<Loc>, args: seq<Arg>, c: nat, k: nat, n: nat)
    requires n <= |args| && TailDefault(used, c, args, n, k)
    requires n > 0 ==> !IsDefault(used, c, args[n - 1], k + NumResultsSeq(args[..n - 1]))
    ensures Trim(used, args, c, k) == n
    decreases args
  {
    if n == 0 {
      TrimZero(used, args, c, k);
    } else {
      var rest := args[1..];
      if n > 1 {
        assert rest[n - 2] == args[n - 1] && args[..n - 1][1..] == rest[..n - 2];
      } else {
        assert args[..0] == [];
      }
      TrimIs(used, rest, c, k + NumResults(args[0]), n - 1);
    }
  }

  lemma {:induction false} TrimZero(used: set<Loc>, args: seq<Arg>, c: nat, k: nat)
    requires AllDefault(used, c, args, k)
    ensures Trim(used, args, c, k) == 0
    decreases args
  {
    if args != [] { TrimZero(used, args[1..], c, k + NumResults(args[0])); }
  }

  /** One more default member at the end of what is shown. */
  lemma {:induction false} TailGrows(used: set<Loc>, args: seq<Arg>, c: nat, k: nat, n: nat)
    requires 0 < n <= |args| && TailDefault(used, c, args, n, k)
    requires IsDefault(used, c, args[n - 1], k + NumResultsSeq(args[..n - 1]))
    ensures TailDefault(used, c, args, n - 1, k)
    decreases args
  {
    if n == 1 {
      assert args[..0] == [] && NumResultsSeq([]) == 0;
    } else {
      assert args[1..][n - 2] == args[n - 1] && args[..n - 1][1..] == args[1..][..n - 2];
      TailGrows(used, args[1..], c, k + NumResults(args[0]), n - 1);
    }
  }

  lemma {:induction false} FourParts(a: string, b: string, c: string, d: string)
    ensures a + b + c + d == a + (b + c + d)
  {
  }

  lemma {:induction false} ThreeParts(a: string, b: string, c: string)
    ensures a + b + c == a + (b + c)
  {
  }

  /** A member and the separator before it. */
  ghost function OneItem(env: Env, st: SerState, sep: bool, a: Arg, c: nat, k: nat): Printed {
    if IsPad(a.typ) then Printed("", st)
    else var one := PrintArg(env, st, a, c, k); Printed((if sep then ", " else "") + one.text, one.st)
  }

  /** `all` is what was written so far and the members from `i` on. */
  ghost predicate ToCome(env: Env, st: SerState, all: Printed, done: string, args: seq<Arg>, i: nat, n: nat, c: nat,
      k: nat)
    requires i <= n <= |args|
  {
    var more := PrintItems(env, st, args[i..], n - i, i != 0, c, k);
    all.text == done + more.text && all.st == more.st
  }

  /** The members to show: one, and those after it. */
  lemma {:induction false} ItemsFrom(env: Env, st: SerState, rest: seq<Arg>, n: nat, sep: bool, c: nat, k: nat)
    requires 0 < n <= |rest|
    ensures var one := OneItem(env, st, sep, rest[0], c, k);
      var all := PrintItems(env, st, rest, n, sep, c, k);
      var more := PrintItems(env, one.st, rest[1..], n - 1, true, c, k + NumResults(rest[0]));
      all.text == one.text + more.text && all.st == more.st
  {
    if !IsPad(rest[0].typ) {
      var one := PrintArg(env, st, rest[0], c, k);
      var more := PrintItems(env, one.st, rest[1..], n - 1, true, c, k + NumResults(rest[0]));
      assert PrintItems(env, st, rest, n, sep, c, k) ==
          Printed((if sep then ", " else "") + (one.text + more.text), more.st);
      ThreeParts(if sep then ", " else "", one.text, more.text);
    }
  }

  lemma {:induction false} Turn(env: Env, st: SerState, all: Printed, done: string, args: seq<Arg>, i: nat, n: nat,
      c: nat, k: nat)
    requires i < n <= |args| && ToCome(env, st, all, done, args, i, n, c, k)
    ensures var one := OneItem(env, st, i != 0, args[i], c, k);
      ToCome(env, one.st, all, done + one.text, args, i + 1, n, c, k + NumResults(args[i]))
  {
    var rest := args[i..];
    assert rest[0] == args[i] && rest[1..] == args[i + 1..];
    ItemsFrom(env, st, rest, n - i, i != 0, c, k);
    var one := OneItem(env, st, i != 0, args[i], c, k);
    ThreeParts(done, one.text,
        PrintItems(env, one.st, args[i + 1..], n - i - 1, true, c, k + NumResults(args[i])).text);
  }

  class Serializer {
    const env: Env
    var buf: string
    var vars: map<Loc, nat>
    var varSeq: nat
    var panicked: bool

    function St(): SerState
      reads this
    {
      SerState(vars, varSeq, panicked)
    }

    /** The text of `r` was appended to `before`. */
    ghost predicate Wrote(before: string, r: Printed)
      reads this
    {
      buf == before + r.text && St() == r.st
    }

    constructor (env: Env)
      ensures this.env == env && buf == "" && St() == SerState(map[], 0, false)
    {
      this.env := env;
      buf, vars, varSeq, panicked := "", map[], 0, false;
    }

    method Printf(text: string)
      modifies this`buf
      ensures buf == old(buf) + text
    {
      buf := buf + text;
    }

    method AllocVarID(l: Loc) returns (id: nat)
      modifies this`vars, this`varSeq
      ensures id == old(varSeq) && St() == AllocVar(old(St()), l)
    {
      id := varSeq;
      varSeq := varSeq + 1;
      vars := vars[l := id];
    }

    method Data(a: Arg)
      requires a.DataArg?
      modifies this`buf
      ensures buf == old(buf) + PrintDataArg(a)
    {
      if a.typ.com.dir == DirOut {
        Printf("\"\"/" + Dec(Size(a)));
        return;
      }
      var data := Strip(a.data);
      if a.typ.com.varlen && |data| + 8 >= |a.data| {
        data := a.data;
      }
      Printf(PrintData(data, ReadableType(a.typ)));
      var sized := a.typ.com.varlen && |data| != |a.data|;
      PrintIf(sized, "/" + Dec(|a.data|));
      Assoc(old(buf), PrintData(data, ReadableType(a.typ)), if sized then "/" + Dec(|a.data|) else "");
    }

    /** A reference with its operations. */
    method Ref(l: Loc, opDiv: U64, opAdd: U64)
      modifies this`buf, this`panicked
      ensures buf == old(buf) + PrintRef(old(St()), l, opDiv, opAdd)
      ensures panicked == (old(panicked) || l !in vars)
    {
      ghost var name := if l in vars then Name(vars[l]) else "r";
      ghost var div := if opDiv != 0 then "/" + Dec(opDiv) else "";
      ghost var add := if opAdd != 0 then "+" + Dec(opAdd) else "";
      if l !in vars {
        panicked := true;
        Printf("r");
      } else {
        Printf(Name(vars[l]));
      }
      PrintIf(opDiv != 0, "/" + Dec(opDiv));
      PrintIf(opAdd != 0, "+" + Dec(opAdd));
      FourParts(old(buf), name, div, add);
    }

    method PrintIf(cond: bool, text: string)
      modifies this`buf
      ensures buf == old(buf) + if cond then text else ""
    {
      if cond {
        Printf(text);
      }
    }

    method Result(a: Arg, c: nat, k: nat)
      requires a.ResultArg?
      modifies this
      ensures Wrote(old(buf), PrintResult(env.used, old(St()), a, c, k))
    {
      ghost var head := if Loc(c, k) in env.used then "<" + Name(varSeq) + "=>" else "";
      if Loc(c, k) in env.used {
        var id := AllocVarID(Loc(c, k));
        Printf("<" + Name(id) + "=>");
      }
      assert buf == old(buf) + head;
      if a.ref.None? {
        Printf(Hex(a.val));
        Assoc(old(buf), head, Hex(a.val));
      } else {
        Assoc(old(buf), head, PrintRef(St(), a.ref.value, a.opDiv, a.opAdd));
        Ref(a.ref.value, a.opDiv, a.opAdd);
      }
    }

    /** The number of members to print, found from the end. */
    method LastShown(t: Type, inner: seq<Arg>, c: nat, k: nat) returns (n: nat)
      ensures n == Shown(env, t, inner, c, k)
    {
      n := |inner|;
      if env.verbose || !FixedInner(t) {
        return;
      }
      FullTail(env.used, inner, c, k);
      while n > 0 && IsDefault(env.used, c, inner[n - 1], k + NumResultsSeq(inner[..n - 1]))
        invariant n <= |inner| && TailDefault(env.used, c, inner, n, k)
      {
        TailGrows(env.used, inner, c, k, n);
        n := n - 1;
      }
      TrimIs(env.used, inner, c, k, n);
    }

    /** The loop over the members of a group or a call. */
    method Items(args: seq<Arg>, n: nat, c: nat, k0: nat)
      requires n <= |args|
      modifies this
      ensures Wrote(old(buf), PrintItems(env, old(St()), args, n, false, c, k0))
      decreases args, 0
    {
      var k: nat := k0;
      ghost var all := PrintItems(env, St(), args, n, false, c, k0);
      ghost var done := "";
      assert args[0..] == args;
      for i := 0 to n
        invariant buf == old(buf) + done
        invariant ToCome(env, St(), all, done, args, i, n, c, k)
      {
        ghost var one := OneItem(env, St(), i != 0, args[i], c, k);
        Turn(env, St(), all, done, args, i, n, c, k);
        ThreeParts(old(buf), done, one.text);
        Item(i != 0, args[i], c, k);
        done := done + one.text;
        k := k + NumResults(args[i]);
      }
    }

    /** One member, behind a separator; padding is left out. */
    method Item(sep: bool, a: Arg, c: nat, k: nat)
      modifies this
      ensures Wrote(old(buf), OneItem(env, old(St()), sep, a, c, k))
      decreases a, 2
    {
      if !IsPad(a.typ) {
        ghost var one := PrintArg(env, St(), a, c, k).text;
        PrintIf(sep, ", ");
        Arg_(a, c, k);
        ThreeParts(old(buf), if sep then ", " else "", one);
      }
    }

    /** serialize of an argument. */
    method Arg_(a: Arg, c: nat, k: nat)
      modifies this
      ensures Wrote(old(buf), PrintArg(env, old(St()), a, c, k))
      decreases a, 1
    {
      match a {
        case ConstArg(_, val) => Printf(Hex(val));
        case PointerArg(_, address, vmaSize, res) =>
          if IsSpecial(a) {
            Printf(Hex(address));
          } else {
            Printf(PrintAddr(address, vmaSize));
            if res.None? {
              Printf("=nil");
              assert buf == old(buf) + (PrintAddr(address, vmaSize) + "=nil");
            } else {
              Part(res.value, c, k, PrintAddr(address, vmaSize));
            }
          }
        case DataArg(_, _, _) => Data(a);
        case GroupArg(t, inner) =>
          var open, close := if t.StructT? then "{" else "[", if t.StructT? then "}" else "]";
          Printf(open);
          var n := LastShown(t, inner, c, k);
          ghost var body := PrintItems(env, St(), inner, n, false, c, k);
          Items(inner, n, c, k);
          Printf(close);
          assert buf == old(buf) + (open + body.text + close);
        case UnionArg(_, option) =>
          Printf("@" + option.typ.com.field);
          Part(option, c, k, "@" + option.typ.com.field);
        case ResultArg(_, _, _, _, _) => Result(a, c, k);
      }
    }

    /** The part after `=`, unless it is default. */
    method Part(a: Arg, c: nat, k: nat, ghost head: string)
      modifies this
      ensures forall before :: old(buf) == before + head ==>
        Wrote(before, Attach(head, old(St()), Elided(env, c, a, k), PrintArg(env, old(St()), a, c, k)))
      decreases a, 2
    {
      if !env.verbose && IsDefault(env.used, c, a, k) {
        return;
      }
      Printf("=");
      ghost var text := PrintArg(env, St(), a, c, k).text;
      Arg_(a, c, k);
      forall before | old(buf) == before + head ensures buf == before + (head + "=" + text) {
        assert old(buf) + "=" + text == before + (head + "=" + text);
      }
    }

    method Call_(call: Call, c: nat)
      modifies this
      ensures Wrote(old(buf), PrintCall(env, old(St()), call, c))
    {
      ghost var head := "";
      if call.ret.Some? && Loc(c, 0) in env.used {
        var id := AllocVarID(Loc(c, 0));
        Printf(Name(id) + " = ");
        head := Name(id) + " = ";
      }
      assert buf == old(buf) + head;
      Printf(call.meta.name);
      Printf("(");
      assert buf == old(buf) + head + call.meta.name + "(";
      ghost var args := PrintItems(env, St(), call.args, |call.args|, false, c, 1);
      Items(call.args, |call.args|, c, 1);
      Printf(")");
      assert buf == old(buf) + (head + (call.meta.name + ("(" + (args.text + ")"))));
    }
  }

  lemma {:induction false} LineParts(buf: string, one: string, more: string)
    ensures buf + (one + ("\n" + more)) == (buf + one + "\n") + more
  {
  }

  /** Serialize and SerializeVerbose. */
  method Serialize(tgt: Target, p: Program, verbose: bool) returns (r: Option<string>)
    ensures r == TextPrint.Serialize(tgt, p, verbose)
  {
    var ser := new Serializer(Env(tgt, RefsProg(p), verbose));
    ghost var all := PrintCalls(ser.env, ser.St(), p, 0);
    for c := 0 to |p|
      invariant fresh(ser) && ser.env == Env(tgt, RefsProg(p), verbose)
      invariant var more := PrintCalls(ser.env, ser.St(), p, c); all.text == ser.buf + more.text && all.st == more.st
    {
      ghost var buf := ser.buf;
      ghost var one := PrintCall(ser.env, ser.St(), p[c], c);
      ghost var more := PrintCalls(ser.env, one.st, p, c + 1);
      LineParts(buf, one.text, more.text);
      ser.Call_(p[c], c);
      ser.Printf("\n");
    }
    assert ser.buf + "" == ser.buf;
    r := if ser.panicked then None else Some(ser.buf);
  }
}
