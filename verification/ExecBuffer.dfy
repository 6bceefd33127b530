/**
  The write side of execContext (prog/encodingexec.go): words and blobs go into a fixed
  buffer, and a write that does not fit only raises `eof`; later, smaller writes may
  still land.  SerializeForExec reports success from the flag alone.
 */
module ExecBuffer {
  import opened Ir
  import opened ExecFormat
  import opened ExecRoundTrip

  /** Data at the start of padded room is a blob. */
  lemma {:induction false} BlobInPlace(bytes: seq<Byte>, pos: nat, padded: nat, data: seq<Byte>)
    requires padded == Padded(|data|) && pos + padded <= |bytes| && bytes[pos..pos + |data|] == data
    ensures ItemAt(bytes[pos..pos + padded], Blob(data))
  {
    assert bytes[pos..pos + padded][..|data|] == bytes[pos..pos + |data|];
  }

  lemma {:induction false} StartsExtend(bytes: seq<Byte>, more: seq<Byte>, items: seq<Item>)
    requires Starts(bytes, items)
    ensures Starts(bytes + more, items)
    decreases items
  {
    if items != [] {
      var n := ItemLen(items[0]);
      StartsExtend(bytes[n..], more, items[1..]);
      assert (bytes + more)[n..] == bytes[n..] + more;
      match items[0]
      case Word(_) => assert (bytes + more)[..8] == bytes[..8];
      case Blob(data) => assert (bytes + more)[..|data|] == bytes[..|data|];
    }
  }

  /** One more item at the end of a complete encoding. */
  lemma {:induction false} StartsSnoc(bytes: seq<Byte>, more: seq<Byte>, items: seq<Item>, it: Item)
    requires Starts(bytes, items) && Len(items) == |bytes|
    requires |more| == ItemLen(it) && ItemAt(more, it)
    ensures Starts(bytes + more, items + [it]) && Len(items + [it]) == |bytes + more|
  {
    StartsExtend(bytes, more, items);
    StartsAppend(bytes + more, items, [it]);
    LenAppend(items, [it]);
    assert (bytes + more)[|bytes|..] == more;
    assert [it][1..] == [] && more[ItemLen(it)..] == [];
  }

  /** The writer's way to compute a padded length agrees with the reader's. */
  method PadLength(n: nat) returns (padded: nat)
    ensures padded == Padded(n)
  {
    padded := n;
    var pad := 8 - n % 8;
    if pad != 8 { padded := padded + pad; }
    assert n == n / 8 * 8 + n % 8;
  }

  lemma {:induction false} WordInPlace(bytes: seq<Byte>, v: U64)
    requires bytes == LeBytes(v, 8)
    ensures ItemAt(bytes, Word(v))
  {
    Pow256Of8();
    LeRoundTrip(v, 8);
    assert bytes[..8] == bytes;
  }

  class ExecContext {
    const buf: array<Byte>
    var pos: nat  // number of bytes written; w.buf is the rest
    var eof: bool
    ghost var items: seq<Item>  // everything the caller asked to write

    constructor (buffer: array<Byte>)
      ensures Valid() && buf == buffer && items == [] && pos == 0
    {
      buf, pos, eof, items := buffer, 0, false, [];
    }

    /** The flag is down exactly while everything asked for is in the buffer. */
    ghost predicate Valid()
      reads this, buf
    {
      && pos <= buf.Length
      && (eof ==> Len(items) > buf.Length)
      && (!eof ==> pos == Len(items) && Starts(buf[..pos], items))
    }

    /** Bytes from `from` on keep their old values. */
    twostate predicate Untouched(from: nat)
      reads this, buf
    {
      forall i :: from <= i < buf.Length ==> buf[i] == old(buf[i])
    }

    /** copy(w.buf, bytes) */
    method Put(bytes: seq<Byte>)
      requires pos + |bytes| <= buf.Length
      modifies buf
      ensures buf[..pos] == old(buf[..pos]) && buf[pos..pos + |bytes|] == bytes
      ensures forall k :: pos + |bytes| <= k < buf.Length ==> buf[k] == old(buf[k])
    {
      var i := 0;
      while i < |bytes|
        invariant 0 <= i <= |bytes|
        invariant forall k :: 0 <= k < pos ==> buf[k] == old(buf[k])
        invariant forall k :: 0 <= k < i ==> buf[pos + k] == bytes[k]
        invariant forall k :: pos + i <= k < buf.Length ==> buf[k] == old(buf[k])
      {
        buf[pos + i] := bytes[i];
        i := i + 1;
      }
    }

    /** Advance over an item whose bytes are in place. */
    ghost method Note(it: Item)
      requires pos + ItemLen(it) <= buf.Length
      requires eof ==> Len(items) > buf.Length
      requires !eof ==> pos == Len(items) && Starts(buf[..pos], items)
      requires ItemAt(buf[pos..pos + ItemLen(it)], it)
      modifies this`items
      ensures items == old(items) + [it]
      ensures eof ==> Len(items) > buf.Length
      ensures !eof ==> pos + ItemLen(it) == Len(items) && Starts(buf[..pos + ItemLen(it)], items)
    {
      LenAppend(items, [it]);
      if !eof {
        StartsSnoc(buf[..pos], buf[pos..pos + ItemLen(it)], items, it);
        assert buf[..pos + ItemLen(it)] == buf[..pos] + buf[pos..pos + ItemLen(it)];
      }
      items := items + [it];
    }

    /** Raise the flag over an item that does not fit. */
    method Full(ghost it: Item)
      requires Valid() && pos + ItemLen(it) > buf.Length
      modifies this`eof, this`items
      ensures Valid() && items == old(items) + [it]
    {
      LenAppend(items, [it]);
      assert [it][1..] == [];
      eof := true;
      items := items + [it];
    }

    method Write(v: U64)
      requires Valid()
      modifies this, buf
      ensures Valid() && items == old(items) + [Word(v)]
      ensures old(pos) <= pos && Untouched(pos)
    {
      if buf.Length - pos < 8 {
        Full(Word(v));
      } else {
        Put(LeBytes(v, 8));
        WordInPlace(buf[pos..pos + 8], v);
        Note(Word(v));
        pos := pos + 8;
      }
    }

    /** The bytes of a blob; its padding keeps what the buffer held. */
    method PutBlob(data: seq<Byte>)
      requires pos + Padded(|data|) <= buf.Length
      modifies buf
      ensures buf[..pos] == old(buf[..pos])
      ensures ItemAt(buf[pos..pos + ItemLen(Blob(data))], Blob(data))
      ensures forall k :: pos + ItemLen(Blob(data)) <= k < buf.Length ==> buf[k] == old(buf[k])
    {
      Put(data);
      ghost var bytes, padded := buf[..], Padded(|data|);
      assert bytes[pos..pos + |data|] == buf[pos..pos + |data|] && bytes[pos..pos + padded] == buf[pos..pos + padded];
      BlobInPlace(bytes, pos, padded, data);
    }

    method WriteBlob(data: seq<Byte>)
      requires Valid()
      modifies this, buf
      ensures Valid() && items == old(items) + [Blob(data)]
      ensures old(pos) <= pos && Untouched(pos)
    {
      var padded := PadLength(|data|);
      if buf.Length - pos < padded {
        Full(Blob(data));
      } else {
        PutBlob(data);
        Note(Blob(data));
        pos := pos + padded;
      }
    }

    /** The writes of a whole program, in order; none is skipped after a failed one. */
    method WriteAll(todo: seq<Item>)
      requires Valid()
      modifies this, buf
      ensures Valid() && items == old(items) + todo
      ensures old(pos) <= pos && Untouched(pos)
    {
      var i := 0;
      while i < |todo|
        invariant 0 <= i <= |todo| && Valid() && old(pos) <= pos && Untouched(pos)
        invariant items == old(items) + todo[..i]
        decreases |todo| - i
      {
        match todo[i] {
          case Word(v) => Write(v);
          case Blob(data) => WriteBlob(data);
        }
        assert todo[..i + 1] == todo[..i] + [todo[i]];
        i := i + 1;
      }
      assert todo[..i] == todo;
    }
  }

  /** Success exactly when the encoding fits; on success its length is returned, the bytes
      decode to the calls, and nothing past them was written. */
  method SerializeForExec(nsys: nat, calls: seq<ExecCall>, buffer: array<Byte>) returns (r: Option<nat>)
    requires CallsFit(nsys, calls)
    modifies buffer
    ensures r.Some? <==> Len(EncProg(nsys, calls)) <= buffer.Length
    ensures r.Some? ==> r.value == Len(EncProg(nsys, calls)) && Starts(buffer[..r.value], EncProg(nsys, calls))
    ensures r.Some? ==> forall i :: r.value <= i < buffer.Length ==> buffer[i] == old(buffer[i])
  {
    var w := new ExecContext(buffer);
    var todo := EncProg(nsys, calls);
    w.WriteAll(todo);
    assert [] + todo == todo;
    if w.eof {
      return None;
    }
    return Some(w.pos);
  }

  /** The two halves together: a buffer that was large enough decodes to the same calls. */
  lemma {:induction false} SerializeThenDecode(nsys: nat, calls: seq<ExecCall>, buffer: seq<Byte>, n: nat, k: nat)
    requires CallsFit(nsys, calls) && n == Len(EncProg(nsys, calls)) <= |buffer|
    requires Starts(buffer[..n], EncProg(nsys, calls))
    requires IsSup(k, Referenced(AllArgs(calls))) && IsSup(k, Assigned(calls))
    ensures DeserializeExec(nsys, buffer) == Ok((calls, NoteArgs([], AllArgs(calls))))
  {
    StartsExtend(buffer[..n], buffer[n..], EncProg(nsys, calls));
    assert buffer[..n] + buffer[n..] == buffer;
    RoundTrip(nsys, calls, buffer, k, k);
  }
}
