/**
  execDecoder of prog/decodeexec.go with its error flag: after an error reads return 0
  and the code runs on.  The methods are proved to compute what the fail-fast functions
  of ExecFormat say.
 */
module ExecDecoder {
  import opened Ir
  import F = ExecFormat
  import opened ExecFormat

  lemma {:induction false} LeSnoc(b: seq<Byte>, x: Byte)
    ensures LeVal(b + [x]) == LeVal(b) + Pow256(|b|) * x
  {
    if b == [] {
      assert b + [x] == [x];
    } else {
      LeSnoc(b[1..], x);
      assert (b + [x])[1..] == b[1..] + [x];
      assert Pow256(|b|) * x == 256 * (Pow256(|b| - 1) * x);
    }
  }

  class Decoder {
    const nsys: nat
    var data: seq<Byte>
    var err: Option<Error>
    var numVars: nat
    var vars: seq<U64>
    var call: Pending
    var calls: seq<ExecCall>

    constructor (nsys: nat, exec: seq<Byte>)
      ensures this.nsys == nsys && err == None && State() == Dec(exec, 0, [], NO_CALL, [])
    {
      this.nsys := nsys;
      data, err, numVars, vars, call, calls := exec, None, 0, [], NO_CALL, [];
    }

    ghost function State(): Dec
      reads this
    {
      Dec(data, numVars, vars, call, calls)
    }

    /** Only the first error is kept. */
    method SetErr(e: Error)
      modifies this`err
      ensures err == if old(err).None? then Some(e) else old(err)
    {
      if err.None? { err := Some(e); }
    }

    method Read() returns (v: U64)
      modifies this`data, this`err
      ensures old(err).Some? ==> err == old(err) && v == 0 && data == old(data)
      ensures old(err).None? ==>
                match F.Read(old(data))
                case Err(e) => err == Some(e) && v == 0 && data == old(data)
                case Ok((w, rest)) => err.None? && v == w && data == rest
    {
      if |data| < 8 {
        SetErr(Overflow);
      }
      if err.Some? {
        return 0;
      }
      v := Load(data[..8]);
      data := data[8..];
    }

    /** The shift-and-or loop of read. */
    static method Load(b: seq<Byte>) returns (v: U64)
      requires |b| == 8
      ensures v == LeVal(b)
    {
      var x: nat, mul: nat, i := 0, 1, 0;
      while i < 8
        invariant 0 <= i <= 8
        invariant x == LeVal(b[..i]) && mul == Pow256(i)
      {
        LeSnoc(b[..i], b[i]);
        assert b[..i + 1] == b[..i] + [b[i]];
        x, mul := x + mul * b[i], mul * 256;
        i := i + 1;
      }
      assert b[..8] == b;
      LeValBound(b);
      Pow256Of8();
      v := x;
    }

    method ReadBlob(size: U64) returns (blob: seq<Byte>)
      requires size < DATA_READABLE
      modifies this`data, this`err
      ensures old(err).Some? ==> err == old(err)
      ensures old(err).None? ==>
                match F.ReadBlob(old(data), size)
                case Err(e) => err == Some(e)
                case Ok((b, rest)) => err.None? && blob == b && data == rest
    {
      var padded := (size + 7) / 8 * 8;
      if |data| < padded {
        SetErr(Overflow);
      }
      if err.Some? {
        return [];
      }
      blob := data[..size];
      data := data[padded..];
    }

    method ReadChunks(n: nat) returns (chunks: seq<Chunk>)
      modifies this`data, this`err
      ensures old(err).Some? ==> err == old(err)
      ensures old(err).None? ==>
                match F.ReadChunks(old(data), n)
                case Err(e) => err == Some(e)
                case Ok((cs, rest)) => err.None? && chunks == cs && data == rest
    {
      chunks := [];
      if n > 0 {
        var kind := Read();
        var value := Read();
        var size := Read();
        var more := ReadChunks(n - 1);
        chunks := [Chunk(kind, value, size)] + more;
      }
    }

    method ReadArg() returns (a: ExecArg)
      modifies this`data, this`err, this`vars
      ensures old(err).Some? ==> err == old(err)
      ensures old(err).None? ==>
                match F.ReadArg(old(data), old(vars))
                case Err(e) => err == Some(e)
                case Ok((x, vs, rest)) => err.None? && a == x && vars == vs && data == rest
    {
      a := ExecData([], false);
      var typ := Read();
      if typ == ARG_CONST {
        var meta := Read();
        var value := Read();
        a := ExecConst(meta % 0x100, meta / 0x100 % 0x100, value, meta / 0x1_0000 % 0x100,
                       meta / 0x100_0000 % 0x100, meta / 0x1_0000_0000);
      } else if typ == ARG_RESULT {
        a := ReadResult();
      } else if typ == ARG_DATA {
        var flags := Read();
        var blob := ReadBlob(flags % DATA_READABLE);
        a := ExecData(blob, flags >= DATA_READABLE);
      } else if typ == ARG_CSUM {
        a := ReadCsum();
      } else {
        SetErr(BadArgType);
      }
    }

    method ReadResult() returns (a: ExecArg)
      modifies this`data, this`err, this`vars
      ensures old(err).Some? ==> err == old(err)
      ensures old(err).None? ==>
                match F.ReadResult(old(data), old(vars))
                case Err(e) => err == Some(e)
                case Ok((x, vs, rest)) => err.None? && a == x && vars == vs && data == rest
    {
      var meta := Read();
      var index := Read();
      var div := Read();
      var add := Read();
      var default := Read();
      a := ExecResult(meta % 0x100, meta / 0x100 % 0x100, index, div, add, default);
      NoteReference(index, default);
    }

    /** Grow `vars` to hold a variable and record its default. */
    method NoteReference(index: U64, default: U64)
      modifies this`vars
      ensures vars == NoteVar(old(vars), index, default)
    {
      while |vars| <= index
        invariant |old(vars)| <= |vars| <= if |old(vars)| <= index then index + 1 else |old(vars)|
        invariant forall i :: 0 <= i < |vars| ==> vars[i] == if i < |old(vars)| then old(vars)[i] else 0
        decreases index + 1 - |vars|
      {
        vars := vars + [0];
      }
      vars := vars[index := default];
    }

    method ReadCsum() returns (a: ExecArg)
      modifies this`data, this`err
      ensures old(err).Some? ==> err == old(err)
      ensures old(err).None? ==>
                match F.ReadCsum(old(data), vars)
                case Err(e) => err == Some(e)
                case Ok((x, _, rest)) => err.None? && a == x && data == rest
    {
      a := ExecData([], false);
      var size := Read();
      var kind := Read();
      if kind == CSUM_INET {
        var n := Read();
        if n > MAX_CHUNKS {
          SetErr(HugeSlice);
          return;
        }
        var chunks := ReadChunks(n);
        a := ExecCsum(size, chunks);
      } else {
        SetErr(BadCsumKind);
      }
    }

    /** commitCall */
    method Commit()
      modifies this`numVars, this`calls, this`call
      ensures State() == F.Commit(old(State()))
    {
      if call.meta.None? {
        return;
      }
      if call.index != NO_COPYOUT && numVars < call.index + 1 {
        numVars := call.index + 1;
      }
      var i := 0;
      while i < |call.copyout|
        invariant 0 <= i <= |call.copyout| && call == old(call) && calls == old(calls)
        invariant NumVarsOut(numVars, call.copyout[i..]) == NumVarsCall(old(numVars), call.index, call.copyout)
      {
        assert call.copyout[i..][1..] == call.copyout[i + 1..];
        var n := (call.copyout[i].index + 1) % TWO64;
        if numVars < n {
          numVars := n;
        }
        i := i + 1;
      }
      assert call.copyout[|call.copyout|..] == [];
      calls := calls + [ExecCall(call.meta.value, call.index, call.args, call.copyin, call.copyout)];
      call := NO_CALL;
    }

    /** The argument loop of parse. */
    method ReadArgs(n: nat) returns (args: seq<ExecArg>)
      modifies this`data, this`err, this`vars
      ensures old(err).Some? ==> err == old(err)
      ensures old(err).None? ==>
                match F.ReadArgs(old(data), old(vars), n)
                case Err(e) => err == Some(e)
                case Ok((xs, vs, rest)) => err.None? && vars == vs && data == rest && args == xs
    {
      args := [];
      if n > 0 {
        var a := ReadArg();
        if !a.ExecConst? && !a.ExecResult? {
          SetErr(BadCallArg);
          return;
        }
        var more := ReadArgs(n - 1);
        args := [a] + more;
      }
    }

    /** One instruction of parse other than the terminator. */
    method Instruction(instr: U64)
      modifies this
      requires err.None? && instr != INSTR_EOF
      ensures match F.Step(nsys, old(State()), instr, old(data))
              case Err(e) => err == Some(e)
              case Ok(d) => err.None? && State() == d
    {
      if instr == INSTR_COPYIN {
        Commit();
        var addr := Read();
        var arg := ReadArg();
        call := call.(copyin := call.copyin + [Copyin(addr, arg)]);
      } else if instr == INSTR_COPYOUT {
        var index := Read();
        var addr := Read();
        var size := Read();
        call := call.(copyout := call.copyout + [Copyout(index, addr, size)]);
      } else {
        Commit();
        if instr >= nsys {
          SetErr(BadSyscall);
          return;
        }
        call := call.(meta := Some(instr));
        var index := Read();
        call := call.(index := index);
        var n := Read();
        var args := ReadArgs(n);
        call := call.(args := call.args + args);
      }
    }

    /** parse */
    method Parse()
      requires err.None?
      modifies this
      ensures match F.Parse(nsys, old(State()))
              case Err(e) => err == Some(e)
              case Ok(d) => err.None? && State() == d
    {
      while err.None?
        invariant match err
                  case None => F.Parse(nsys, State()) == F.Parse(nsys, old(State()))
                  case Some(e) => F.Parse(nsys, old(State())) == Err(e)
        decreases if err.None? then |data| + 1 else 0
      {
        ghost var before := State();
        var instr := Read();
        if err.None? && instr == INSTR_EOF {
          Commit();
          return;
        }
        if err.None? {
          assert Step(nsys, State(), instr, data) == Step(nsys, before, instr, data) by {
            StepIgnoresData(nsys, before, data, instr);
          }
          Instruction(instr);
        }
      }
    }
  }

  lemma {:induction false} StepIgnoresData(nsys: nat, d: Dec, data1: seq<Byte>, instr: U64)
    ensures F.Step(nsys, d.(data := data1), instr, data1) == F.Step(nsys, d, instr, data1)
  {
  }

  /** DeserializeExec */
  method DeserializeExec(nsys: nat, exec: seq<Byte>) returns (r: Result<(seq<ExecCall>, seq<U64>)>)
    ensures r == F.DeserializeExec(nsys, exec)
  {
    var dec := new Decoder(nsys, exec);
    dec.Parse();
    if dec.err.Some? {
      return Err(dec.err.value);
    }
    if |dec.vars| != dec.numVars {
      return Err(VarsMismatch);
    }
    return Ok((dec.calls, dec.vars));
  }
}
