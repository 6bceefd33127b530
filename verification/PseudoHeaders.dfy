/**
  The pseudo-headers of checksums (prog/checksum.go:77-172): which addresses they sum, and in
  which form.
 */
module PseudoHeaders {
  import opened Ir
  import opened ExecFormat
  import opened Traversal
  import opened ChecksumWriter
  import opened CallChecksums
  import C = Checksum
  import Sizes

  /** A header of IP version 4 or 6, told by its name; `size` is that of an address. */
  predicate IsHeader(a: Arg, size: nat) {
    a.GroupArg? &&
    var name := a.typ.com.name;
    || (size == 4 && (Sizes.IsTemplate(name, "ipv4_header") || Sizes.IsTemplate(name, "syz_csum_ipv4_header")))
    || (size == 16 && (Sizes.IsTemplate(name, "ipv6_packet_t") || Sizes.IsTemplate(name, "syz_csum_ipv6_header")))
  }

  // ----- the header -----

  /** Argument `n` is the first member of group `g` with that field name. */
  ghost predicate IsMember(vs: seq<Visit>, g: nat, name: string, n: nat)
    requires g < |vs| && vs[g].arg.GroupArg?
  {
    exists f :: 0 <= f < |vs[g].arg.inner| && FirstNamed(vs[g].arg.inner, name, f)
                && n == g + 1 + CountSeq(vs[g].arg.inner[..f])
  }

  predicate FirstNamed(args: seq<Arg>, name: string, f: nat)
    requires f < |args|
  {
    args[f].typ.com.field == name && forall i :: 0 <= i < f ==> args[i].typ.com.field != name
  }

  /** The addresses of header `g`. */
  ghost predicate AreAddresses(vs: seq<Visit>, g: nat, size: nat, src: nat, dst: nat)
    requires g < |vs| && vs[g].arg.GroupArg?
  {
    && src < |vs| && dst < |vs| && IsMember(vs, g, "src_ip", src) && IsMember(vs, g, "dst_ip", dst)
    && Size(vs[src].arg) == size && Size(vs[dst].arg) == size
  }

  lemma {:induction false} FieldNoIs(inner: seq<Arg>, n: nat, name: string)
    ensures FieldNo(inner, n, name).None? ==> forall i :: 0 <= i < |inner| ==> inner[i].typ.com.field != name
    ensures FieldNo(inner, n, name).Some? ==>
      exists f ::
        0 <= f < |inner| && FirstNamed(inner, name, f) && FieldNo(inner, n, name).value == n + CountSeq(inner[..f])
  {
    if inner != [] {
      if inner[0].typ.com.field == name {
        assert FirstNamed(inner, name, 0) && inner[..0] == [];
      } else {
        var rest := inner[1..];
        FieldNoIs(rest, n + Count(inner[0]), name);
        if FieldNo(inner, n, name).Some? {
          var f :| 0 <= f < |rest| && FirstNamed(rest, name, f) &&
                   FieldNo(rest, n + Count(inner[0]), name).value == n + Count(inner[0]) + CountSeq(rest[..f]);
          assert inner[..f + 1][1..] == rest[..f] && FirstNamed(inner, name, f + 1);
        } else {
          assert forall i :: 0 < i < |inner| ==> inner[i] == rest[i - 1];
        }
      }
    }
  }

  lemma {:induction false} MemberUnique(vs: seq<Visit>, g: nat, name: string, n: nat, k: nat)
    requires g < |vs| && vs[g].arg.GroupArg? && IsMember(vs, g, name, n) && IsMember(vs, g, name, k)
    ensures n == k
  {
  }

  lemma {:induction false} ParamsAre(vs: seq<Visit>, g: nat, size: nat)
    requires g < |vs| && vs[g].arg.GroupArg?
    ensures match Params(vs, g, size)
            case Some(p) => AreAddresses(vs, g, size, p.0, p.1)
            case None => forall src, dst :: !AreAddresses(vs, g, size, src, dst)
  {
    var inner := vs[g].arg.inner;
    FieldNoIs(inner, g + 1, "src_ip");
    FieldNoIs(inner, g + 1, "dst_ip");
    if Params(vs, g, size).None? {
      forall src, dst ensures !AreAddresses(vs, g, size, src, dst) {
        if AreAddresses(vs, g, size, src, dst) {
          MemberUnique(vs, g, "src_ip", src, FieldNo(inner, g + 1, "src_ip").value);
          MemberUnique(vs, g, "dst_ip", dst, FieldNo(inner, g + 1, "dst_ip").value);
        }
      }
    }
  }

  /** No header among the arguments from `lo` to `hi`. */
  ghost predicate NoneIn(vs: seq<Visit>, lo: nat, hi: nat)
    requires hi <= |vs|
  {
    forall g :: lo <= g < hi ==> !IsHeader(vs[g].arg, 4) && !IsHeader(vs[g].arg, 16)
  }

  lemma {:induction false} HeaderSize(a: Arg)
    requires a.GroupArg?
    ensures var name := Sizes.TemplateName(a.typ.com.name);
      && (IsHeader(a, 4) <==> name == "ipv4_header" || name == "syz_csum_ipv4_header")
      && (IsHeader(a, 16) <==> name == "ipv6_packet_t" || name == "syz_csum_ipv6_header")
  {
    var name := a.typ.com.name;
    Sizes.OneTemplate(name, "ipv4_header");
    Sizes.OneTemplate(name, "syz_csum_ipv4_header");
    Sizes.OneTemplate(name, "ipv6_packet_t");
    Sizes.OneTemplate(name, "syz_csum_ipv6_header");
  }

  /** The addresses found are those of the last header; there are none if there is no header, and
      the search panics if some header has no such addresses. */
  ghost predicate IsFound(vs: seq<Visit>, k: nat, h: Header)
    requires k <= |vs|
  {
    match h
    case NoHeader => NoneIn(vs, 0, k)
    case Addresses(src, dst) => exists g, size ::
      0 <= g < k && IsHeader(vs[g].arg, size) && NoneIn(vs, g + 1, k) && AreAddresses(vs, g, size, src, dst)
    case BadHeader => exists g, size ::
      0 <= g < k && IsHeader(vs[g].arg, size) && forall src, dst :: !AreAddresses(vs, g, size, src, dst)
  }

  lemma {:induction false} NotHeader(vs: seq<Visit>, k: nat, h: Header)
    requires k < |vs| && IsFound(vs, k, h) && (h.BadHeader? || NoneIn(vs, k, k + 1))
    ensures IsFound(vs, k + 1, h)
  {
    if h.Addresses? {
      var g, size :| 0 <= g < k && IsHeader(vs[g].arg, size) && NoneIn(vs, g + 1, k)
                     && AreAddresses(vs, g, size, h.src, h.dst);
      assert NoneIn(vs, g + 1, k + 1);
    }
  }

  lemma {:induction false} ThisHeader(vs: seq<Visit>, k: nat, size: nat)
    requires k < |vs| && IsHeader(vs[k].arg, size)
    ensures var p := Params(vs, k, size);
      IsFound(vs, k + 1, if p.None? then BadHeader else Addresses(p.value.0, p.value.1))
  {
    ParamsAre(vs, k, size);
    assert NoneIn(vs, k + 1, k + 1);
  }

  lemma {:induction false} HeaderFound(vs: seq<Visit>, k: nat)
    requires k <= |vs|
    ensures IsFound(vs, k, FindHeader(vs, k))
    decreases k
  {
    if k > 0 {
      HeaderFound(vs, k - 1);
      var before, a := FindHeader(vs, k - 1), vs[k - 1].arg;
      if a.GroupArg? { HeaderSize(a); }
      if before.BadHeader? || !(IsHeader(a, 4) || IsHeader(a, 16)) {
        NotHeader(vs, k - 1, before);
      } else {
        ThisHeader(vs, k - 1, if IsHeader(a, 4) then 4 else 16);
      }
    }
  }

  // ----- the region -----

  /** The region of a pseudo-header field is the pseudo-header of its protocol, between the
      addresses found, and the packet: that of version 4 for addresses of 4 bytes, else that of
      version 6. */
  ghost predicate IsPseudoRegion(region: seq<C.Chunk>, src: Place, dst: Place, packet: Place, protocol: Byte) {
    || (src.size == 4 && dst.size == 4
        && region == C.PseudoIPv4(src.addr, dst.addr, protocol, packet.addr, packet.size))
    || (src.size == 16 && dst.size == 16
        && region == C.PseudoIPv6(src.addr, dst.addr, protocol, packet.addr, packet.size))
  }

  lemma {:induction false} SameBytes(v: nat, n: nat)
    ensures LeBytes(v, n) == C.Le(v, n)
    decreases n
  {
    if n > 0 { SameBytes(v / 256, n - 1); }
  }

  /** A chunk as the executor sums it. */
  function Summed(c: CsumChunk, places: map<nat, Place>): C.Chunk
    requires c.ArgChunk? ==> c.arg in places
  {
    match c
    case ArgChunk(a) => C.DataChunk(places[a].addr, places[a].size)
    case ConstChunk(value, size) => C.ConstChunk(C.Le(value, size))
  }

  lemma {:induction false} ChunkRuns(cs: seq<CsumChunk>, places: map<nat, Place>, i: nat)
    requires ChunksKnown(cs, places) && i < |cs|
    ensures |RunChunks(EmitChunks(cs, places))| == |cs|
    ensures RunChunks(EmitChunks(cs, places))[i] == Summed(cs[i], places)
    decreases cs
  {
    if i > 0 {
      ChunkRuns(cs[1..], places, i - 1);
      assert EmitChunks(cs, places)[i] == EmitChunks(cs[1..], places)[i - 1];
    } else if cs[0].ConstChunk? {
      SameBytes(cs[0].value, cs[0].size);
    }
  }

  lemma {:induction false} FiveRun(cs: seq<CsumChunk>, places: map<nat, Place>)
    requires |cs| == 5 && ChunksKnown(cs, places)
    ensures RunChunks(EmitChunks(cs, places)) == [Summed(cs[0], places), Summed(cs[1], places), Summed(cs[2], places),
                                                  Summed(cs[3], places), Summed(cs[4], places)]
  {
    forall i | 0 <= i < 5
      ensures |RunChunks(EmitChunks(cs, places))| == 5 && RunChunks(EmitChunks(cs, places))[i] == Summed(cs[i], places)
    {
      ChunkRuns(cs, places, i);
    }
  }

  /** The sizes in the pseudo-header are those in memory. */
  lemma {:induction false} SameSize(size: nat)
    ensures size % TWO64 % 0x1_0000 == size % 0x1_0000 && size % TWO64 % C.TWO32 == size % C.TWO32
  {
  }

  lemma {:induction false} Swap16Fits(v: nat)
    requires v < 0x1_0000
    ensures C.Swap16(v) % TWO64 == C.Swap16(v)
  {
  }

  lemma {:induction false} Swap32Fits(v: nat)
    requires v < C.TWO32
    ensures C.Swap32(v) % TWO64 == C.Swap32(v)
  {
    assert v / 0x100_0000 < 0x100;
    assert C.Swap32(v) < TWO64;
  }

  lemma {:induction false} ShortHeader(vs: seq<Visit>, h: Header, packet: nat, protocol: U64)
    requires h.Addresses? && h.src < |vs| && h.dst < |vs| && packet < |vs|
    requires Size(vs[h.src].arg) == 4 && Size(vs[h.dst].arg) == 4
    ensures var cs, places := PseudoChunks(vs, h, packet, protocol), Places(vs);
      && ChunksKnown(cs, places)
      && RunChunks(EmitChunks(cs, places)) ==
         C.PseudoIPv4(places[h.src].addr, places[h.dst].addr, protocol % 256, places[packet].addr, places[packet].size)
  {
    var cs, places := PseudoChunks(vs, h, packet, protocol), Places(vs);
    FiveRun(cs, places);
    var size := Size(vs[packet].arg);
    SameSize(size);
    Swap16Fits(protocol % 256);
    Swap16Fits(size % 0x1_0000);
    assert places[h.src].size == 4 && places[h.dst].size == 4;
  }

  lemma {:induction false} LongHeader(vs: seq<Visit>, h: Header, packet: nat, protocol: U64)
    requires h.Addresses? && h.src < |vs| && h.dst < |vs| && packet < |vs|
    requires Size(vs[h.src].arg) == 16 && Size(vs[h.dst].arg) == 16
    ensures var cs, places := PseudoChunks(vs, h, packet, protocol), Places(vs);
      && ChunksKnown(cs, places)
      && RunChunks(EmitChunks(cs, places)) ==
         C.PseudoIPv6(places[h.src].addr, places[h.dst].addr, protocol % 256, places[packet].addr, places[packet].size)
  {
    var cs, places := PseudoChunks(vs, h, packet, protocol), Places(vs);
    FiveRun(cs, places);
    var size := Size(vs[packet].arg);
    SameSize(size);
    Swap32Fits(protocol % 256);
    Swap32Fits(size % C.TWO32);
    assert places[h.src].size == 16 && places[h.dst].size == 16;
  }

  lemma {:induction false} PseudoRegion(vs: seq<Visit>, k: nat)
    requires Calc(vs).Some? && IsPseudo(vs, k)
    ensures Known(Calc(vs).value, Places(vs)) && k in Calc(vs).value
    ensures var h := FindHeader(vs, |vs|);
      && h.Addresses? && Find(vs, k).Some?
      && IsPseudoRegion(Region(Calc(vs).value, Places(vs), k), PlaceOf(vs[h.src]), PlaceOf(vs[h.dst]),
                        PlaceOf(vs[Find(vs, k).value]), vs[k].arg.typ.protocol % 256)
  {
    var h, packet, protocol := FindHeader(vs, |vs|), Find(vs, k).value, vs[k].arg.typ.protocol;
    CalcKnown(vs);
    assert SomePseudo(vs);
    HeaderFound(vs, |vs|);
    assert Calc(vs).value[k] == PseudoChunks(vs, h, packet, protocol) by {
      assert Calc(vs).value[k] == ChunksOf(vs, h, k);
    }
    if Size(vs[h.src].arg) == 4 {
      ShortHeader(vs, h, packet, protocol);
    } else {
      LongHeader(vs, h, packet, protocol);
    }
  }

  /** That of any other field is the struct that it covers. */
  lemma {:induction false} PlainRegion(vs: seq<Visit>, k: nat)
    requires Calc(vs).Some? && CallChecksums.IsField(vs, k) && !IsPseudo(vs, k)
    ensures Known(Calc(vs).value, Places(vs)) && k in Calc(vs).value && Find(vs, k).Some?
    ensures var s := vs[Find(vs, k).value];
      Region(Calc(vs).value, Places(vs), k) == [C.DataChunk(PlaceOf(s).addr, Size(s.arg) % TWO64)]
  {
    CalcKnown(vs);
    var cs := Calc(vs).value[k];
    assert cs == ChunksOf(vs, FindHeader(vs, |vs|), k);
    ChunkRuns(cs, Places(vs), 0);
  }
}
