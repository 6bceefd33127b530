/**
  The squash functions as the source writes them: they append to a list of elements and grow
  the data of its last element.
 */
module SquashBuilder {
  import opened Ir
  import opened ExecFormat
  import opened ExecCompile
  import opened Squash

  /** The loop that cuts a value into bytes. */
  method CutBytes(v0: nat, size: nat) returns (data: seq<Byte>)
    ensures data == LeBytes(v0, size)
  {
    data := [];
    var v := v0;
    for i := 0 to size
      invariant data + LeBytes(v, size - i) == LeBytes(v0, size)
    {
      assert LeBytes(v, size - i) == [v % 256] + LeBytes(v / 256, size - i - 1);
      data := data + [v % 256];
      v := v / 256;
    }
  }

  lemma {:induction false} AppendTwice(any: AnyTypes, elems: seq<Arg>, data: seq<Byte>)
    ensures AddData(any, AddData(any, elems, []), data) == AddData(any, elems, data)
  {
    var e := AddData(any, elems, []);
    assert e[..|e| - 1] == if elems != [] && IsBlob(elems[|elems| - 1]) then elems[..|elems| - 1] else elems;
    assert e[|e| - 1].option.data + data ==
           if elems != [] && IsBlob(elems[|elems| - 1]) then elems[|elems| - 1].option.data + data else data;
  }

  class Builder {
    const tgt: Target
    const any: AnyTypes
    var elems: seq<Arg>

    constructor (tgt: Target, any: AnyTypes)
      ensures this.tgt == tgt && this.any == any && elems == []
    {
      this.tgt, this.any := tgt, any;
      elems := [];
    }

    /** ensureDataElem: afterwards the last element holds data. */
    method EnsureDataElem()
      modifies this
      ensures elems == AddData(any, old(elems), [])
      ensures elems != [] && IsBlob(elems[|elems| - 1])
    {
      if elems == [] || !IsBlob(elems[|elems| - 1]) {
        elems := elems + [UnionArg(any.union, DataArg(any.blob, [], 0))];
      } else {
        var last := elems[|elems| - 1];
        assert last.option.data + [] == last.option.data;
        assert elems == elems[..|elems| - 1] + [last];
      }
    }

    method Append(data: seq<Byte>)
      modifies this
      ensures elems == AddData(any, old(elems), data)
    {
      EnsureDataElem();
      AppendTwice(any, old(elems), data);
      var n := |elems| - 1;
      var d := elems[n].option;
      elems := elems[..n] + [UnionArg(elems[n].typ, DataArg(d.typ, d.data + data, d.outSize))];
    }

    method Pad(pad: nat)
      modifies this
      ensures Some(elems) == AddPad(any, Some(old(elems)), pad)
    {
      if pad != 0 {
        Append(Zeros(pad));
      }
    }

    /** squashConst; false is a panic. */
    method SquashConst(a: Arg) returns (ok: bool)
      requires a.ConstArg?
      modifies this
      ensures ok <==> Squash.SquashConst(any, a, old(elems)).Some?
      ensures ok ==> Squash.SquashConst(any, a, old(elems)) == Some(elems)
    {
      if IsPad(a.typ) {
        Append(Zeros(Size(a)));
        return true;
      }
      var v := SquashedValue(a);
      if v.None? {
        return false;
      }
      var data := CutBytes(v.value, Size(a));
      Append(data);
      return true;
    }

    /** squashGroup: bitfields are collected until one of them has a size. */
    method SquashGroup(a: Arg) returns (ok: bool)
      requires a.GroupArg?
      modifies this
      ensures ok <==> SquashFields(tgt, any, a.inner, 0, old(elems)).Some?
      ensures ok ==> Some(elems) == SquashFields(tgt, any, a.inner, 0, old(elems))
      decreases a, 0
    {
      var bitfield := 0;
      var i := 0;
      assert a.inner[0..] == a.inner;
      while i < |a.inner|
        invariant 0 <= i <= |a.inner|
        invariant SquashFields(tgt, any, a.inner, 0, old(elems)) ==
            SquashFields(tgt, any, a.inner[i..], bitfield, elems)
      {
        var fld := a.inner[i];
        assert a.inner[i..][0] == fld && a.inner[i..][1..] == a.inner[i + 1..];
        if IsBitfield(fld.typ) {
          if !fld.ConstArg? {
            return false;
          }
          var v := SquashedValue(fld);
          if v.None? {
            return false;
          }
          bitfield := AddBits(bitfield, fld.typ, v.value);
          if Size(fld) != 0 {
            var data := CutBytes(bitfield, Size(fld));
            Append(data);
            bitfield := 0;
          }
        } else {
          var fine := SquashArg(fld);
          if !fine {
            return false;
          }
        }
        i := i + 1;
      }
      return true;
    }

    /** squashPtrImpl. */
    method SquashArg(a: Arg) returns (ok: bool)
      modifies this
      ensures ok <==> SquashImpl(tgt, any, a, old(elems)).Some?
      ensures ok ==> SquashImpl(tgt, any, a, old(elems)) == Some(elems)
      decreases a, 1
    {
      if BfLen(a.typ) != 0 {
        return false;
      }
      match a {
        case ConstArg(_, _) => ok := SquashConst(a);
        case ResultArg(_, _, _, _, _) =>
          var r := SquashResult(any, a, elems);
          ok := r.Some?;
          if ok {
            elems := r.value;
          }
        case PointerArg(_, _, _, res) =>
          if res.Some? {
            var p := SquashPointer(tgt, any, a);
            ok := p.Some?;
            if ok {
              elems := elems + [UnionArg(any.union, p.value)];
            }
          } else {
            var addr := PhysicalAddr(tgt, a);
            ok := addr.Some?;
            if ok {
              var data := CutBytes(addr.value, Size(a));
              Append(data);
            }
          }
        case UnionArg(t, option) =>
          var pad := if t.com.varlen then 0 else t.com.size - Size(option);
          ok := SquashArg(option);
          if ok {
            ok := pad >= 0;
            if ok {
              Pad(pad);
            }
          }
        case DataArg(t, data, _) =>
          ok := true;
          if t.com.dir == DirOut {
            Pad(Size(a));
          } else {
            Append(data);
          }
        case GroupArg(t, inner) =>
          ok := SquashGroup(a);
          if ok {
            Pad(GroupPad(t, inner));
          }
      }
    }
  }

  /** squashPtr with a list of its own; None is a panic. */
  method SquashPointer(tgt: Target, any: AnyTypes, a: Arg) returns (r: Option<Arg>)
    requires a.PointerArg?
    ensures r == SquashPtr(tgt, any, a)
    decreases a, 0
  {
    if a.res.None? || a.vmaSize != 0 {
      return None;
    }
    var b := new Builder(tgt, any);
    var ok := b.SquashArg(a.res.value);
    if !ok || (Size(a) != any.ptrSize && Size(a) != 8) {
      return None;
    }
    var res := GroupArg(any.list, b.elems);
    if Size(res) != Size(a.res.value) {
      return None;
    }
    r := Some(PointerArg(PtrT(a.typ.com.(dir := DirIn, optional := true), any.pointee), a.address, a.vmaSize,
        Some(res)));
  }
}
