/**
  The parser as the source runs it (prog/encoding.go:206-960): a cursor that moves over the lines,
  variables that are bound on the way, and an error `e` that sticks.

  The helpers that look at single characters only record an error; the parser goes on with what
  they return, and Deserialize looks at `e` in the end.  Other errors are returned at once
  (`err`).  Whatever is made after an error is recorded is thrown away, but it must be made
  without a panic and come to an end.
 */
module TextParser {
  import opened Ir
  import opened Defaults
  import opened TextLex
  import opened TextParse
  import TextPrint

  class Parser {
    const tgt: Target
    var s: string
    var i: nat
    var e: bool // an error is recorded
    var vars: map<string, Loc>
    var call: nat
    var next: nat

    ghost predicate Valid()
      reads this
    {
      TargetOk(tgt) && i <= |s|
    }

    /** The text that is left of the line. */
    ghost function Left(): string
      requires Valid()
      reads this
    {
      s[i..]
    }

    ghost function St(): State
      reads this
    {
      State(vars, call, next)
    }

    /** The cursor stands at `c`, and no error is recorded. */
    ghost predicate At(c: char)
      reads this
    {
      !e && i < |s| && s[i] == c
    }

    /** From cursor `from` the token `r` was read.  With an error recorded before (`was`) nothing is
        said of what was read; otherwise there is an error now exactly if there is no token. */
    ghost predicate Took<T>(from: nat, was: bool, err: bool, v: T, r: Token<T>)
      reads this
    {
      && Valid() && from <= i && (was ==> e)
      && (!was ==> (err || e <==> r.Err?) && (r.Token? ==> v == r.v && Left() == r.rest))
    }

    /** The same for what is made from tokens. */
    ghost predicate Came<T>(from: nat, was: bool, err: bool, v: T, r: Parsed<T>)
      reads this
    {
      && Valid() && from <= i && (was ==> e)
      && (!was ==> (err || e <==> r.Fail?) && (r.Ok? ==> v == r.v && St() == r.st && Left() == r.rest))
    }

    constructor (tgt: Target)
      requires TargetOk(tgt)
      ensures Valid() && this.tgt == tgt && !e && vars == map[] && call == 0
    {
      this.tgt, s, i, e, vars, call, next := tgt, "", 0, false, map[], 0, 1;
    }

    /** Scan, for one more line. */
    method Scan(line: string)
      requires Valid()
      modifies this`s, this`i, this`next
      ensures Valid() && Left() == line && next == 1
    {
      s, i, next := line, 0, 1;
    }

    // ----- characters -----

    /** SkipWs. */
    method SkipBlanks()
      requires Valid()
      modifies this`i
      ensures Valid() && old(i) <= i && Left() == SkipWs(old(Left()))
    {
      while i < |s| && IsBlank(s[i])
        invariant old(i) <= i <= |s| && SkipWs(s[i..]) == SkipWs(old(Left()))
      {
        assert s[i..][1..] == s[i + 1..];
        i := i + 1;
      }
    }

    /** Char: a zero character stands for an error. */
    method Char() returns (c: char)
      requires Valid()
      modifies this`e
      ensures Valid() && e == (old(e) || Left() == "")
      ensures c == if e then '\0' else Left()[0]
    {
      if e {
        return '\0';
      }
      if i == |s| {
        e := true;
        return '\0';
      }
      return s[i];
    }

    /** Parse: one given character and the blanks after it. */
    method Expect(ch: char)
      requires Valid()
      modifies this`i, this`e
      ensures Took(old(i), old(e), false, (), Eat(ch, old(Left())))
      ensures old(At(ch)) ==> old(i) < i
    {
      if e {
        return;
      }
      if i == |s| || s[i] != ch {
        e := true;
        return;
      }
      assert s[i..][1..] == s[i + 1..];
      i := i + 1;
      SkipBlanks();
    }

    /** consume. */
    method Consume() returns (c: char)
      requires Valid()
      modifies this`i, this`e
      ensures Valid() && old(i) <= i && e == (old(e) || old(Left()) == "")
      ensures if e then c == '\0' else old(i) < i && c == old(Left())[0] && Left() == old(Left())[1..]
    {
      if e {
        return '\0';
      }
      if i == |s| {
        e := true;
        return '\0';
      }
      assert s[i..][1..] == s[i + 1..];
      i := i + 1;
      return s[i - 1];
    }

    /** Ident, which moves the cursor even after an error. */
    method Identifier() returns (id: string)
      requires Valid()
      modifies this`i, this`e
      ensures Took(old(i), old(e), false, id, Ident(old(Left())))
      ensures old(i) < i <==> old(i) < |s| && IsIdentChar(s[old(i)])
      ensures id != "" ==> old(i) < i
    {
      var start := i;
      ghost var left := Left();
      while i < |s| && IsIdentChar(s[i])
        invariant start <= i <= |s| && e == old(e)
        invariant IdentLen(left) == i - start + IdentLen(s[i..])
        invariant start < i ==> IsIdentChar(s[start])
      {
        assert s[i..][1..] == s[i + 1..];
        i := i + 1;
      }
      assert IdentLen(s[i..]) == 0;
      if i == start {
        e := true;
        return "";
      }
      id := s[start..i];
      assert left[..i - start] == id && left[i - start..] == s[i..];
      SkipBlanks();
    }

    method Uint() returns (err: bool, v: U64)
      requires Valid()
      modifies this`i, this`e
      ensures Took(old(i), old(e), err, v, Number(old(Left())))
      ensures !err ==> old(i) < i
    {
      var id := Identifier();
      var n := ParseUint(id);
      if n.None? {
        return true, 0;
      }
      return false, n.value;
    }

    // ----- data -----

    /** One byte of a literal in single quotes. */
    method EscapedByte() returns (err: bool, b: Byte)
      requires Valid() && !e && Left() != ""
      modifies this`i, this`e
      ensures Took(old(i), false, err, b, UnescapeByte(old(Left()))) && old(i) < i
    {
      b := 0;
      var v := Consume();
      if v != '\\' {
        if v as int >= 256 {
          return true, b;
        }
        return false, v as int;
      }
      v := Consume();
      if v == 'x' {
        var hi := Consume();
        var lo := Consume();
        var h, l := FromHexChar(hi), FromHexChar(lo);
        if h.None? || l.None? {
          return true, b;
        }
        return false, h.value * 16 + l.value;
      }
      var u := Unletter(v);
      if u.None? {
        return true, b;
      }
      return false, u.value;
    }

    /** deserializeData after an opening single quote. */
    method Readable() returns (err: bool, data: seq<Byte>)
      requires Valid() && !e
      modifies this`i, this`e
      ensures Took(old(i), false, err, data, Unescape(old(Left())))
    {
      data := [];
      PushNone(Unescape(s[i..]));
      var c := Char();
      while c != '\'' && c != '\0'
        invariant Valid() && old(i) <= i && e == (i == |s|) && c == if e then '\0' else s[i]
        invariant Unescape(old(Left())) == PushData(data, Unescape(s[i..]))
        decreases |s| - i
      {
        ghost var left := s[i..];
        var b;
        err, b := EscapedByte();
        if err || e {
          return true, data;
        }
        assert Unescape(left) == PushData([b], Unescape(s[i..]));
        PushTwice(data, [b], Unescape(s[i..]));
        data := data + [b];
        c := Char();
      }
      Expect('\'');
      assert data + [] == data;
      err := false;
    }

    /** deserializeData. */
    method Data() returns (err: bool, data: seq<Byte>)
      requires Valid() && (At('"') || At('\''))
      modifies this`i, this`e
      ensures Took(old(i), false, err, data, ParseData(old(Left()))) && old(i) < i
    {
      assert s[i..][1..] == s[i + 1..];
      var c := Char();
      if c == '"' {
        Expect('"');
        err, data := HexDigits();
        return;
      }
      c := Consume();
      err, data := Readable();
    }

    /** Hexadecimal digits and the closing quote. */
    method HexDigits() returns (err: bool, data: seq<Byte>)
      requires Valid() && !e
      modifies this`i, this`e
      ensures Took(old(i), false, err, data, ParseHexData(old(Left())))
    {
      var val := "";
      var c := Char();
      if c != '"' {
        val := Identifier();
      }
      Expect('"');
      var d := UnhexData(val);
      if d.None? {
        return true, [];
      }
      return false, d.value;
    }

    // ----- arguments -----

    /** A new argument; its result arguments get the next places. */
    method Make(a: Arg) returns (r: Arg)
      modifies this`next
      ensures r == a && next == old(next) + NumResults(a)
    {
      next := next + NumResults(a);
      return a;
    }

    /** eatExcessive does nothing once an error is recorded; its recovery from other mismatches is
        an error here. */
    method EatExcessive() returns (err: bool)
      ensures err == !e
    {
      err := !e;
    }

    method Int(t: Type) returns (err: bool, a: Arg)
      requires Valid() && TypeOk(|tgt.pointees|, t) && At('0')
      modifies this
      ensures s == old(s) && call == old(call) && Came(old(i), false, err, a, ParseInt(tgt, t, old(St()), old(Left())))
      ensures !err ==> old(i) < i
    {
      a := ConstArg(t, 0);
      var v;
      err, v := Uint();
      if err {
        return;
      }
      if HasBits(t) {
        a := Make(ConstArg(t, if t.com.dir == DirOut && !t.LenT? then DefaultVal(t) else v));
      } else if t.ResourceT? {
        a := Make(ResultArg(t, None, 0, 0, v));
      } else if t.PtrT? || t.VmaT? {
        a := Make(PointerArg(t, Neg64(Neg64(v) % |tgt.special|), 0, None));
      } else {
        err := EatExcessive();
        a := DefaultArg(tgt, t);
      }
    }

    /** An optional operation of a reference. */
    method Operation(op: char) returns (err: bool, v: U64)
      requires Valid() && op != '\0'
      modifies this`i, this`e
      ensures Took(old(i), old(e), err, v, ParseOp(op, old(Left())))
    {
      var c := Char();
      if c != op {
        return false, 0;
      }
      Expect(op);
      err, v := Uint();
    }

    /** A variable, and the division and the addition after it. */
    method RefParts() returns (err: bool, r: (string, U64, U64))
      requires Valid()
      modifies this`i, this`e
      ensures Took(old(i), old(e), err, r, RefToken(old(Left())))
      ensures old(At('r')) ==> old(i) < i
    {
      var id := Identifier();
      r := (id, 0, 0);
      var div, add;
      err, div := Operation('/');
      if err {
        return;
      }
      err, add := Operation('+');
      r := (id, div, add);
    }

    /** parseArgRes. */
    method Reference(t: Type) returns (err: bool, a: Arg)
      requires Valid() && TypeOk(|tgt.pointees|, t) && At('r')
      modifies this
      ensures s == old(s) && call == old(call) && Came(old(i), false, err, a, ParseRef(tgt, t, old(St()), old(Left())))
      ensures !err ==> old(i) < i
    {
      RefReads(tgt, t, St(), Left());
      a := ConstArg(t, 0);
      var r;
      err, r := RefParts();
      if err {
        return;
      }
      if r.0 in vars {
        a := Make(ResultArg(t, Some(vars[r.0]), r.1, r.2, 0));
      } else {
        a := Make(DefaultArg(tgt, t));
      }
    }

    method Offset(addr: U64) returns (err: bool, r: U64)
      requires Valid()
      modifies this`i, this`e
      ensures Took(old(i), old(e), err, r, ParseOffset(addr, old(Left())))
    {
      var c := Char();
      if c != '+' && c != '-' {
        return false, addr;
      }
      Expect(c);
      var off;
      err, off := Uint();
      r := Moved(addr, c == '-', off);
    }

    method Range(addr: U64) returns (err: bool, r: (nat, nat))
      requires Valid()
      modifies this`i, this`e
      ensures Took(old(i), old(e), err, r, ParseRange(tgt, addr, old(Left())))
    {
      var c := Char();
      if c != '/' {
        return false, (addr as nat, 0);
      }
      Expect('/');
      var size;
      err, size := Uint();
      r := ClampRange(tgt, addr, size);
    }

    /** The number after the opening parenthesis of an address. */
    method BaseAddress() returns (err: bool, n: U64)
      requires Valid()
      modifies this`i, this`e
      ensures Took(old(i), old(e), err, n, ParseBase(old(Left())))
    {
      Expect('(');
      err, n := Uint();
      if err || n < TextPrint.ADDR_BASE {
        return true, 0;
      }
      n := n - TextPrint.ADDR_BASE;
    }

    /** parseAddr. */
    method Address() returns (err: bool, r: (nat, nat))
      requires Valid()
      modifies this`i, this`e
      ensures Took(old(i), old(e), err, r, ParseAddr(tgt, old(Left())))
    {
      r := (0, 0);
      var n;
      err, n := BaseAddress();
      if err {
        return;
      }
      err, n := Offset(n);
      if err {
        return;
      }
      err, r := Range(n);
      if err {
        return;
      }
      Expect(')');
    }

    method Nil()
      requires Valid()
      modifies this`i, this`e
      ensures Took(old(i), old(e), false, (), ParseNil(old(Left())))
      ensures old(At('n')) ==> old(i) < i
    {
      Expect('n');
      Expect('i');
      Expect('l');
    }

    /** A memory range, perhaps with `=nil` behind it. */
    method Vma(t: Type, addr: nat, size: nat) returns (err: bool, a: Arg)
      requires Valid()
      modifies this
      ensures s == old(s) && call == old(call)
      ensures Came(old(i), old(e), err, a, ParseVma(tgt, t, old(St()), addr, size, old(Left())))
    {
      a := ConstArg(t, 0);
      err := addr >= TWO64 || size >= TWO64;
      var c := Char();
      if c == '=' {
        Expect('=');
        Nil();
      }
      if !err {
        a := Make(MakeVma(tgt, t, addr, size));
      }
    }

    method SizeOf() returns (err: bool, r: Option<nat>)
      requires Valid()
      modifies this`i, this`e
      ensures Took(old(i), old(e), err, r, ParseSize(tgt, old(Left())))
    {
      var c := Char();
      if c != '/' {
        return false, None;
      }
      Expect('/');
      var n;
      err, n := Uint();
      r := Some(if n > MaxMem(tgt) then MaxMem(tgt) else n);
    }

    /** Data and its optional size. */
    method Literal() returns (err: bool, r: (seq<Byte>, Option<nat>))
      requires Valid() && (At('"') || At('\''))
      modifies this`i, this`e
      ensures Took(old(i), false, err, r, LiteralToken(tgt, old(Left()))) && old(i) < i
    {
      var data, size;
      err, data := Data();
      r := (data, None);
      if err {
        return;
      }
      err, size := SizeOf();
      r := (data, size);
    }

    /** parseArgString. */
    method String(t: Type) returns (err: bool, a: Arg)
      requires Valid() && TypeOk(|tgt.pointees|, t) && (At('"') || At('\''))
      modifies this
      ensures s == old(s) && call == old(call) &&
          Came(old(i), false, err, a, ParseString(tgt, t, old(St()), old(Left())))
      ensures !err ==> old(i) < i
    {
      a := ConstArg(t, 0);
      if !t.BufferT? {
        err := EatExcessive();
        return;
      }
      StringReads(tgt, t, St(), Left());
      var r;
      err, r := Literal();
      if err {
        return;
      }
      a := Make(MakeData(t, r.0, DataSize(t, r.0, r.1)));
    }

    /** parseArg. */
    method Argument(t: Type) returns (err: bool, a: Arg)
      requires Valid() && TypeOk(|tgt.pointees|, t)
      modifies this
      ensures s == old(s) && call == old(call) && Came(old(i), old(e), err, a, ParseArg(tgt, t, old(St()), old(Left())))
      ensures !err ==> old(i) < i
      decreases |s| - i, 2, 0
    {
      var c := Char();
      if c == '<' {
        err, a := Named(t);
      } else {
        err, a := Unnamed(t);
      }
    }

    /** An argument with a variable in front. */
    method Named(t: Type) returns (err: bool, a: Arg)
      requires Valid() && TypeOk(|tgt.pointees|, t) && At('<')
      modifies this
      ensures s == old(s) && call == old(call) && Came(old(i), false, err, a, ParseArg(tgt, t, old(St()), old(Left())))
      ensures old(i) < i
      decreases |s| - i, 1, 1
    {
      var name := VarName();
      var l := Loc(call, next);
      err, a := Unnamed(t);
      if !err && name != "" && a.ResultArg? {
        vars := vars[name := l];
      }
    }

    /** A name in angle brackets. */
    method VarName() returns (name: string)
      requires Valid() && At('<')
      modifies this`i, this`e
      ensures Took(old(i), false, false, name, ParseName(old(Left()))) && old(i) < i
    {
      Expect('<');
      name := Identifier();
      Expect('=');
      Expect('>');
    }

    /** parseArgImpl.  After an error there is no character to choose by. */
    method Unnamed(t: Type) returns (err: bool, a: Arg)
      requires Valid() && TypeOk(|tgt.pointees|, t)
      modifies this
      ensures s == old(s) && call == old(call) &&
          Came(old(i), old(e), err, a, ParseImpl(tgt, t, old(St()), old(Left())))
      ensures !err ==> old(i) < i
      decreases |s| - i, 1, 0
    {
      a, err := ConstArg(t, 0), false;
      var c := Char();
      match c {
        case '0' => err, a := Int(t);
        case 'r' => err, a := Reference(t);
        case '&' => err, a := Pointer(t);
        case '"' => err, a := String(t);
        case '\'' => err, a := String(t);
        case '{' => err, a := Group(t, '{', '}');
        case '[' => err, a := Group(t, '[', ']');
        case '@' => err, a := Union(t);
        case 'n' =>
          Nil();
          a := Make(DefaultArg(tgt, t));
        case _ => err := true;
      }
    }

    /** parseArgAddr. */
    method Pointer(t: Type) returns (err: bool, a: Arg)
      requires Valid() && TypeOk(|tgt.pointees|, t) && At('&')
      modifies this
      ensures s == old(s) && call == old(call) &&
          Came(old(i), false, err, a, ParsePointer(tgt, t, old(St()), old(Left())))
      ensures !err ==> old(i) < i
      decreases |s| - i, 0, 0
    {
      a := ConstArg(t, 0);
      if !t.PtrT? && !t.VmaT? {
        err := EatExcessive();
        return;
      }
      Expect('&');
      var addr;
      err, addr := Address();
      if !err {
        err, a := PointsTo(t, addr);
      }
    }

    /** What a pointer is made of once its address is read. */
    method PointsTo(t: Type, addr: (nat, nat)) returns (err: bool, a: Arg)
      requires Valid() && TypeOk(|tgt.pointees|, t) && (t.PtrT? || t.VmaT?)
      modifies this
      ensures s == old(s) && call == old(call)
      ensures Came(old(i), old(e), err, a,
                   if t.VmaT? then ParseVma(tgt, t, old(St()), addr.0, addr.1, old(Left()))
                   else PointTo(t, addr.0, ParsePart(tgt, tgt.pointees[t.pointee], old(St()), old(Left()))))
      decreases |s| - i, 0, 1
    {
      if t.VmaT? {
        err, a := Vma(t, addr.0, addr.1);
        return;
      }
      a := ConstArg(t, 0);
      var inner;
      err, inner := Part(tgt.pointees[t.pointee]);
      err := err || addr.0 >= TWO64;
      if !err {
        a := PointerArg(t, addr.0, 0, Some(inner));
      }
    }

    /** What follows `=`, or a default. */
    method Part(t: Type) returns (err: bool, a: Arg)
      requires Valid() && TypeOk(|tgt.pointees|, t)
      modifies this
      ensures s == old(s) && call == old(call) &&
          Came(old(i), old(e), err, a, ParsePart(tgt, t, old(St()), old(Left())))
      decreases |s| - i, 0, 0
    {
      var c := Char();
      if c != '=' {
        a := Make(DefaultArg(tgt, t));
        return false, a;
      }
      Expect('=');
      err, a := Argument(t);
    }

    /** parseArgUnion. */
    method Union(t: Type) returns (err: bool, a: Arg)
      requires Valid() && TypeOk(|tgt.pointees|, t) && At('@')
      modifies this
      ensures s == old(s) && call == old(call)
      ensures Came(old(i), false, err, a, if t.UnionT? then ParseUnion(tgt, t, old(St()), old(Left())) else Fail)
      ensures !err ==> old(i) < i
      decreases |s| - i, 0, 0
    {
      a := ConstArg(t, 0);
      if !t.UnionT? {
        err := EatExcessive();
        return;
      }
      Expect('@');
      var name := Identifier();
      var o := FindOption(t.options, name);
      if o.None? {
        err := EatExcessive();
        return;
      }
      OptionOk(|tgt.pointees|, t.options, name);
      var option;
      err, option := Part(o.value);
      if !err {
        a := UnionArg(t, option);
      }
    }

    /** parseArgStruct and parseArgArray. */
    method Group(t: Type, open: char, close: char) returns (err: bool, a: Arg)
      requires Valid() && TypeOk(|tgt.pointees|, t) && At(open)
      requires (open == '{' && close == '}') || (open == '[' && close == ']')
      modifies this
      ensures s == old(s) && call == old(call)
      ensures Came(old(i), false, err, a,
          if Bracketed(t, open) then ParseGroup(tgt, t, open, close, old(St()), old(Left())) else Fail)
      ensures !err ==> old(i) < i
      decreases |s| - i, 0, 0
    {
      a := ConstArg(t, 0);
      Expect(open);
      if !Bracketed(t, open) {
        err := EatExcessive();
        return;
      }
      var inner;
      err, inner := Members(ShapeOf(t), close);
      if !err {
        a := GroupArg(t, inner);
      }
    }

    /** The comma after a member that is not the last. */
    method Separator(close: char)
      requires Valid() && close != '\0'
      modifies this`i, this`e
      ensures Took(old(i), old(e), false, (), AfterItem(close, old(Left())))
    {
      var c := Char();
      if c != close {
        Expect(',');
      }
    }

    /** One member and the comma after it; padding takes no text. */
    method Member(sh: Shape, close: char) returns (err: bool, a: Arg)
      requires Valid() && ShapeOk(|tgt.pointees|, sh) && Head(sh).Some? && close != '\0'
      modifies this
      ensures s == old(s) && call == old(call) &&
          Came(old(i), old(e), err, a, MemberOf(tgt, sh, close, old(St()), old(Left())))
      ensures !err ==> old(i) < i || IsPad(Head(sh).value)
      decreases |s| - i, 2, 1
    {
      HeadTail(|tgt.pointees|, sh);
      var t := Head(sh).value;
      if IsPad(t) {
        return false, ConstArg(t, 0);
      }
      err, a := Argument(t);
      if !err {
        Separator(close);
      }
    }

    /** The end of a list, and the defaults added after it. */
    method Close(sh: Shape, close: char) returns (fill: seq<Arg>)
      requires Valid() && ShapeOk(|tgt.pointees|, sh)
      modifies this`i, this`e, this`next
      ensures Valid() && old(i) <= i && (old(e) ==> e) && fill == Fill(tgt, sh)
      ensures old(At(close)) ==> Came(old(i), false, false, fill, ParseItems(tgt, sh, close, old(St()), old(Left())))
    {
      Expect(close);
      fill := Fill(tgt, sh);
      next := next + NumResultsSeq(fill);
    }

    /** The members `inner` were read, and `sh` is to come: unless there was an error before, all of
        the list comes to `all`. */
    ghost predicate Reading(was: bool, all: Parsed<seq<Arg>>, inner: seq<Arg>, sh: Shape, close: char)
      reads this
    {
      && Valid() && ShapeOk(|tgt.pointees|, sh) && (was ==> e)
      && (!was ==> if e then all.Fail? else all == AddAll(inner, ParseItems(tgt, sh, close, St(), Left())))
    }

    /** One step of the loop. */
    method NextMember(sh: Shape, close: char, inner: seq<Arg>, ghost was: bool, ghost all: Parsed<seq<Arg>>)
      returns (err: bool, more: seq<Arg>)
      requires Reading(was, all, inner, sh, close) && Head(sh).Some? && close != '\0'
      requires !e ==> i < |s| && s[i] != close
      modifies this
      ensures s == old(s) && call == old(call) && Valid() && old(i) <= i && (was ==> e)
      ensures err && !was ==> all.Fail?
      ensures !err ==> Reading(was, all, more, Tail(sh), close) && (old(i) < i || IsPad(Head(sh).value))
      decreases |s| - i, 2, 2
    {
      HeadTail(|tgt.pointees|, sh);
      if !e { MemberReads(tgt, sh, close, St(), Left()); }
      var a;
      err, a := Member(sh, close);
      AddOne(inner, a, ParseItems(tgt, Tail(sh), close, St(), Left()));
      more := inner + [a];
    }

    /** The loops over struct fields, array elements and call arguments, and the defaults added
        after them.  After an error padding is still made; anything else returns. */
    method Members(shape: Shape, close: char) returns (err: bool, inner: seq<Arg>)
      requires Valid() && ShapeOk(|tgt.pointees|, shape) && close != '\0'
      modifies this
      ensures s == old(s) && call == old(call) &&
          Came(old(i), old(e), err, inner, ParseItems(tgt, shape, close, old(St()), old(Left())))
      decreases |s| - i, 3, 0
    {
      err, inner := false, [];
      var sh := shape;
      ghost var all := ParseItems(tgt, shape, close, St(), Left());
      AddNone(all);
      var c := Char();
      while c != close
        invariant s == old(s) && call == old(call) && old(i) <= i && Reading(old(e), all, inner, sh, close)
        invariant (!e ==> i < |s|) && c == (if e then '\0' else s[i])
        decreases |s| - i, if sh.Fields? then |sh.types| else 0
      {
        if Head(sh).None? {
          err := EatExcessive();
          if err {
            return;
          }
          break;
        }
        err, inner := NextMember(sh, close, inner, old(e), all);
        if err {
          return;
        }
        sh := Tail(sh);
        c := Char();
      }
      var fill := Close(sh, close);
      inner := inner + fill;
    }

    // ----- calls -----

    /** The name of a call, with or without a variable for its result. */
    method CallName() returns (r: (Option<string>, string))
      requires Valid() && !e
      modifies this`i, this`e
      ensures Took(old(i), false, false, r, ParseCallName(old(Left())))
    {
      var id := Identifier();
      var c := Char();
      if c != '=' {
        return (None, id);
      }
      Expect('=');
      var name := Identifier();
      return (Some(id), name);
    }

    /** One line with a call. */
    method CallLine(line: string) returns (err: bool, c: Call)
      requires Valid() && !e && line != ""
      modifies this
      ensures Valid() && call == old(call) + 1
      ensures var r := ParseLine(tgt, old(vars), old(call), line);
        (err || e <==> r.None?) && (r.Some? ==> c == r.value.call && vars == r.value.vars)
    {
      Scan(line);
      err, c := true, Call(Syscall(0, "", [], None), [], None);
      var at := call;
      var name := CallName();
      var meta := FindSyscall(tgt.syscalls, name.1);
      if meta.None? {
        call := call + 1;
        return;
      }
      Expect('(');
      var args;
      err, args := Members(Fields(meta.value.args), ')');
      if !err {
        err := !Ended();
      }
      call := call + 1;
      if !err {
        var l := MakeLine(meta.value, name.0, at, args, vars);
        c, vars := l.call, l.vars;
      }
    }

    /** Nothing follows but a comment. */
    predicate Ended()
      requires Valid()
      reads this
    {
      i == |s| || (!e && s[i] == '#')
    }
  }

  /** A variable with its operations. */
  function RefToken(s: string): Token<(string, U64, U64)> {
    var id := Ident(s);
    if id.Err? then Err
    else
      var div := ParseOp('/', id.rest);
      if div.Err? then Err
      else
        var add := ParseOp('+', div.rest);
        if add.Err? then Err else Token((id.v, div.v, add.v), add.rest)
  }

  lemma {:induction false} RefReads(tgt: Target, t: Type, st: State, s: string)
    requires TargetOk(tgt) && TypeOk(|tgt.pointees|, t)
    ensures ParseRef(tgt, t, st, s) ==
            if RefToken(s).Err? then Fail
            else Made(st, MakeRef(tgt, t, st.vars, RefToken(s).v.0, RefToken(s).v.1, RefToken(s).v.2), RefToken(s).rest)
  {
  }

  /** A data literal with its size. */
  function LiteralToken(tgt: Target, s: string): Token<(seq<Byte>, Option<nat>)>
    requires TargetOk(tgt)
  {
    var d := ParseData(s);
    if d.Err? then Err
    else
      var size := ParseSize(tgt, d.rest);
      if size.Err? then Err else Token((d.v, size.v), size.rest)
  }

  function DataSize(t: Type, data: seq<Byte>, size: Option<nat>): nat {
    if !t.com.varlen then t.com.size else if size.Some? then size.value else |data|
  }

  lemma {:induction false} StringReads(tgt: Target, t: Type, st: State, s: string)
    requires TargetOk(tgt) && t.BufferT?
    ensures ParseString(tgt, t, st, s) ==
            if LiteralToken(tgt, s).Err? then Fail
            else Made(st, MakeData(t, LiteralToken(tgt, s).v.0,
                DataSize(t, LiteralToken(tgt, s).v.0, LiteralToken(tgt, s).v.1)),
                      LiteralToken(tgt, s).rest)
  {
  }

  /** What is made of one member. */
  function MemberOf(tgt: Target, sh: Shape, close: char, st: State, s: string): Parsed<Arg>
    requires TargetOk(tgt) && ShapeOk(|tgt.pointees|, sh) && Head(sh).Some?
  {
    HeadTail(|tgt.pointees|, sh);
    if IsPad(Head(sh).value) then Ok(ConstArg(Head(sh).value, 0), st, s)
    else
      var a := ParseArg(tgt, Head(sh).value, st, s);
      if a.Fail? || AfterItem(close, a.rest).Err? then Fail else Ok(a.v, a.st, AfterItem(close, a.rest).rest)
  }

  lemma {:induction false} MemberReads(tgt: Target, sh: Shape, close: char, st: State, s: string)
    requires TargetOk(tgt) && ShapeOk(|tgt.pointees|, sh) && Head(sh).Some? && s != "" && s[0] != close
    ensures ShapeOk(|tgt.pointees|, Tail(sh))
    ensures var m := MemberOf(tgt, sh, close, st, s);
      ParseItems(tgt, sh, close, st, s) == if m.Fail? then Fail
          else Push(m.v, ParseItems(tgt, Tail(sh), close, m.st, m.rest))
  {
    HeadTail(|tgt.pointees|, sh);
  }

  /** The bracket belongs to the type. */
  predicate Bracketed(t: Type, open: char) {
    if open == '{' then t.StructT? else t.ArrayT?
  }

  /** Deserialize in non-strict mode: the parser that goes on after errors accepts the same texts
      as the parsing function, with the same programs. */
  method Deserialize(tgt: Target, text: string) returns (r: Option<Program>)
    requires TargetOk(tgt)
    ensures r == TextParse.Deserialize(tgt, text)
  {
    var lines := Lines(text);
    var calls: Program := [];
    var p := new Parser(tgt);
    ghost var all := ParseLines(tgt, map[], 0, lines);
    assert lines[0..] == lines;
    ConsNone(all);
    for n := 0 to |lines|
      invariant fresh(p) && p.tgt == tgt && p.Valid() && !p.e && p.call == |calls|
      invariant all == ConsAll(calls, ParseLines(tgt, p.vars, |calls|, lines[n..]))
    {
      assert lines[n..][0] == lines[n] && lines[n..][1..] == lines[n + 1..];
      if |lines[n]| >= MAX_LINE {
        return None;
      }
      var s := DropCR(lines[n]);
      if s != "" && s[0] != '#' {
        var err, c := p.CallLine(s);
        if err || p.e {
          return None;
        }
        ConsOne(calls, c, ParseLines(tgt, p.vars, |calls| + 1, lines[n + 1..]));
        calls := calls + [c];
      }
    }
    assert calls + [] == calls;
    r := if ValidProg(tgt, calls) then Some(calls) else None;
  }

  function ConsAll(calls: Program, p: Option<Program>): Option<Program> {
    if p.Some? then Some(calls + p.value) else None
  }

  lemma {:induction false} ConsNone(p: Option<Program>)
    ensures ConsAll([], p) == p
  {
    if p.Some? { assert [] + p.value == p.value; }
  }

  lemma {:induction false} ConsOne(calls: Program, call: Call, p: Option<Program>)
    ensures ConsAll(calls, Cons(call, p)) == ConsAll(calls + [call], p)
  {
    if p.Some? { assert calls + ([call] + p.value) == (calls + [call]) + p.value; }
  }

  /** Members read before the rest of the list. */
  function AddAll(inner: seq<Arg>, r: TextParse.Parsed<seq<Arg>>): TextParse.Parsed<seq<Arg>> {
    if r.Ok? then Ok(inner + r.v, r.st, r.rest) else Fail
  }

  lemma {:induction false} AddNone(r: TextParse.Parsed<seq<Arg>>)
    ensures AddAll([], r) == r
  {
    if r.Ok? { assert [] + r.v == r.v; }
  }

  lemma {:induction false} AddOne(inner: seq<Arg>, a: Arg, r: TextParse.Parsed<seq<Arg>>)
    ensures AddAll(inner, Push(a, r)) == AddAll(inner + [a], r)
  {
    if r.Ok? { assert inner + ([a] + r.v) == (inner + [a]) + r.v; }
  }

  lemma {:induction false} HeadTail(n: nat, sh: Shape)
    requires ShapeOk(n, sh) && Head(sh).Some?
    ensures TypeOk(n, Head(sh).value) && ShapeOk(n, Tail(sh))
  {
  }

  function PushData(data: seq<Byte>, r: Token<seq<Byte>>): Token<seq<Byte>> {
    if r.Token? then Token(data + r.v, r.rest) else Err
  }

  lemma {:induction false} PushNone(r: Token<seq<Byte>>)
    ensures PushData([], r) == r
  {
    if r.Token? { assert [] + r.v == r.v; }
  }

  lemma {:induction false} PushTwice(a: seq<Byte>, b: seq<Byte>, r: Token<seq<Byte>>)
    ensures PushData(a, PushData(b, r)) == PushData(a + b, r)
  {
    if r.Token? { assert a + (b + r.v) == (a + b) + r.v; }
  }
}
