/**
  Which bytes the checksums of a call cover (prog/checksum.go).

  The arguments of a call are known by their numbers in the order of ForeachArg.  A checksum field
  covers the struct around it, or the nearest one of a given name, and a pseudo-header checksum
  the addresses of the last IP header of the call besides.
 */
module CallChecksums {
  import opened Ir
  import opened ExecFormat
  import opened ExecMemory
  import opened ExecCompile
  import opened Traversal
  import opened ChecksumWriter
  import C = Checksum
  import Sizes
  import opened CopyoutLaws

  /** w.args: arguments that are not in memory have no entry, which reads as address 0. */
  function PlaceOf(v: Visit): Place {
    Place(if v.base.Some? then AddrAt(v.base.value, v.off, v.arg.typ) else 0, Size(v.arg) % TWO64)
  }

  function Places(vs: seq<Visit>): map<nat, Place> {
    map k | 0 <= k < |vs| :: PlaceOf(vs[k])
  }

  // ----- calcChecksumsCall -----

  /** findCsummedArg; None stands for a panic. */
  function Find(vs: seq<Visit>, k: nat): (r: Option<nat>)
    requires k < |vs| && vs[k].arg.typ.CsumT?
    ensures r.Some? ==> r.value in vs[k].up && r.value < |vs|
  {
    var up := vs[k].up;
    if vs[k].arg.typ.buf == "parent" then (if up != [] && up[0] < |vs| then Some(up[0]) else None)
    else Named(vs, up, vs[k].arg.typ.buf)
  }

  function Named(vs: seq<Visit>, up: seq<nat>, name: string): (r: Option<nat>)
    ensures r.Some? ==> r.value in up && r.value < |vs| && vs[r.value].arg.typ.com.name == name
  {
    if up == [] then None
    else if IsNamed(vs, up[0], name) then Some(up[0])
    else Named(vs, up[1..], name)
  }

  predicate IsNamed(vs: seq<Visit>, s: nat, name: string) {
    s < |vs| && vs[s].arg.typ.com.name == name
  }

  /** The nearest struct of that name around the field, or none has the name. */
  lemma {:induction false} NamedNearest(vs: seq<Visit>, up: seq<nat>, name: string)
    ensures Named(vs, up, name).None? ==> forall s :: s in up ==> !IsNamed(vs, s, name)
    ensures Named(vs, up, name).Some? ==>
      exists j :: 0 <= j < |up| && up[j] == Named(vs, up, name).value && IsNamed(vs, up[j], name)
                  && forall i | 0 <= i < j :: !IsNamed(vs, up[i], name)
  {
    if up != [] && !IsNamed(vs, up[0], name) {
      NamedNearest(vs, up[1..], name);
      if Named(vs, up, name).Some? {
        var j :| 0 <= j < |up[1..]| && up[1..][j] == Named(vs, up, name).value && IsNamed(vs, up[1..][j], name)
                 && forall i | 0 <= i < j :: !IsNamed(vs, up[1..][i], name);
        assert up[j + 1] == up[1..][j];
        forall i | 0 <= i < j + 1 ensures !IsNamed(vs, up[i], name) { if i > 0 { assert up[i] == up[1..][i - 1]; } }
      }
    }
  }

  /** The number of the field of this name; the fields are numbered from `n` on. */
  function FieldNo(inner: seq<Arg>, n: nat, name: string): Option<nat> {
    if inner == [] then None
    else if inner[0].typ.com.field == name then Some(n)
    else FieldNo(inner[1..], n + Count(inner[0]), name)
  }

  /** extractHeaderParams. */
  function Params(vs: seq<Visit>, g: nat, size: nat): (r: Option<(nat, nat)>)
    requires g < |vs| && vs[g].arg.GroupArg?
    ensures r.Some? ==> r.value.0 < |vs| && r.value.1 < |vs|
  {
    var src, dst := FieldNo(vs[g].arg.inner, g + 1, "src_ip"), FieldNo(vs[g].arg.inner, g + 1, "dst_ip");
    if src.None? || dst.None? || src.value >= |vs| || dst.value >= |vs| then None
    else if Size(vs[src.value].arg) != size || Size(vs[dst.value].arg) != size then None
    else Some((src.value, dst.value))
  }

  /** The addresses of the last header among the first `k` arguments. */
  datatype Header = NoHeader | BadHeader | Addresses(src: nat, dst: nat)

  function FindHeader(vs: seq<Visit>, k: nat): (r: Header)
    requires k <= |vs|
    ensures r.Addresses? ==> r.src < |vs| && r.dst < |vs|
  {
    if k == 0 then NoHeader
    else
      var before, a := FindHeader(vs, k - 1), vs[k - 1].arg;
      if before.BadHeader? || !a.GroupArg? then before
      else
        var name := Sizes.TemplateName(a.typ.com.name);
        var size := if name == "ipv4_header" || name == "syz_csum_ipv4_header" then 4
                    else if name == "ipv6_packet_t" || name == "syz_csum_ipv6_header" then 16 else 0;
        if size == 0 then before
        else
          var p := Params(vs, k - 1, size);
          if p.None? then BadHeader else Addresses(p.value.0, p.value.1)
  }

  /** composePseudoCsumIPv4 and composePseudoCsumIPv6. */
  function PseudoChunks(vs: seq<Visit>, h: Header, packet: nat, protocol: U64): seq<CsumChunk>
    requires h.Addresses? && h.src < |vs| && packet < |vs|
  {
    var size := Size(vs[packet].arg);
    [ArgChunk(h.src), ArgChunk(h.dst)] +
    (if Size(vs[h.src].arg) == 4 then
       [ConstChunk(C.Swap16(protocol % 256) % TWO64, 2), ConstChunk(C.Swap16(size % 0x1_0000) % TWO64, 2)]
     else
       [ConstChunk(C.Swap32(size % C.TWO32) % TWO64, 4), ConstChunk(C.Swap32(protocol % 256) % TWO64, 4)]) +
    [ArgChunk(packet)]
  }

  predicate IsField(vs: seq<Visit>, k: nat) {
    k < |vs| && vs[k].arg.typ.CsumT?
  }

  predicate IsPseudo(vs: seq<Visit>, k: nat) {
    IsField(vs, k) && vs[k].arg.typ.csumKind == CsumPseudo
  }

  function ChunksOf(vs: seq<Visit>, h: Header, k: nat): seq<CsumChunk>
    requires IsField(vs, k) && Find(vs, k).Some? && (h.Addresses? ==> h.src < |vs|)
    requires IsPseudo(vs, k) ==> h.Addresses?
  {
    var packet := Find(vs, k).value;
    if IsPseudo(vs, k) then PseudoChunks(vs, h, packet, vs[k].arg.typ.protocol) else [ArgChunk(packet)]
  }

  ghost predicate AllFound(vs: seq<Visit>) {
    forall k | 0 <= k < |vs| && IsField(vs, k) :: Find(vs, k).Some?
  }

  ghost predicate SomePseudo(vs: seq<Visit>) {
    exists k :: 0 <= k < |vs| && IsPseudo(vs, k)
  }

  /** calcChecksumsCall; None stands for its panics. */
  ghost function Calc(vs: seq<Visit>): Option<CsumMap> {
    var h := FindHeader(vs, |vs|);
    if !AllFound(vs) || (SomePseudo(vs) && !h.Addresses?) then None
    else Some(map k | 0 <= k < |vs| && IsField(vs, k) :: ChunksOf(vs, h, k))
  }

  lemma {:induction false} CalcKnown(vs: seq<Visit>)
    requires Calc(vs).Some?
    ensures Known(Calc(vs).value, Places(vs)) && forall k :: k in Calc(vs).value <==> IsField(vs, k)
  {
  }

  // ----- a field lies in the struct it covers -----

  /** Members fit in their group: what the traversal checks, and unions hold their options. */
  predicate Fitting(a: Arg)
    decreases a, 1
  {
    match a
    case PointerArg(_, _, _, res) => res.Some? ==> Fitting(res.value)
    case GroupArg(_, inner) => SizeSeq(inner) <= Size(a) && FittingSeq(inner)
    case UnionArg(_, option) => Size(option) <= Size(a) && Fitting(option)
    case _ => true
  }

  predicate FittingSeq(args: seq<Arg>)
    decreases args, 0
  {
    args != [] ==> Fitting(args[0]) && FittingSeq(args[1..])
  }

  /** The visit is of the same object, between the offsets. */
  predicate Between(v: Visit, base: Option<U64>, lo: nat, hi: nat) {
    v.base == base && lo <= v.off && v.off + Size(v.arg) <= hi
  }

  lemma {:induction false} Extent(tgt: Target, a: Arg, n: nat, base: Option<U64>, off: nat, obj: nat, up: seq<nat>)
    requires Fitting(a) && obj <= n
    ensures forall v :: v in Visits(tgt, a, n, base, off, obj, up) ==>
      if v.obj == obj then Between(v, base, off, off + Size(a)) else v.obj > n
    decreases a, 1
  {
    match a
    case PointerArg(t, _, _, res) =>
      if res.Some? { Extent(tgt, res.value, n + 1, Some(PointeeBase(tgt, a)), 0, n + 1, if t.PtrT? then up else []); }
    case GroupArg(t, inner) => ExtentSeq(tgt, inner, n + 1, base, off, obj, if t.StructT? then [n] + up else []);
    case UnionArg(_, option) => Extent(tgt, option, n + 1, base, off, obj, []);
    case _ =>
  }

  lemma {:induction false} ExtentSeq(tgt: Target, args: seq<Arg>, n: nat, base: Option<U64>, off: nat, obj: nat,
      up: seq<nat>)
    requires FittingSeq(args) && obj <= n
    ensures forall v :: v in VisitsSeq(tgt, args, n, base, off, obj, up) ==>
      if v.obj == obj then Between(v, base, off, off + SizeSeq(args)) else v.obj > n
    decreases args, 0
  {
    if args != [] {
      Extent(tgt, args[0], n, base, off, obj, up);
      ExtentSeq(tgt, args[1..], n + Count(args[0]), base, off + Size(args[0]), obj, up);
    }
  }

  /** `s` is the number of a struct visited before, and encloses the visit if it is of the same object. */
  ghost predicate Encloses(r: seq<Visit>, n: nat, v: Visit, s: nat) {
    n <= s < n + |r| && r[s - n].arg.GroupArg? && r[s - n].arg.typ.StructT? &&
    (r[s - n].obj == v.obj ==> Between(v, r[s - n].base, r[s - n].off, r[s - n].off + Size(r[s - n].arg)))
  }

  /** Every struct above a visit is in `up`, or encloses it. */
  ghost predicate Nested(r: seq<Visit>, n: nat, up: seq<nat>) {
    forall i, s | 0 <= i < |r| && s in r[i].up :: s in up || Encloses(r, n, r[i], s)
  }

  lemma {:induction false} NestedJoin(a: seq<Visit>, b: seq<Visit>, n: nat, up: seq<nat>)
    requires Nested(a, n, up) && Nested(b, n + |a|, up)
    ensures Nested(a + b, n, up)
  {
    var r := a + b;
    forall i, s | 0 <= i < |r| && s in r[i].up && s !in up ensures Encloses(r, n, r[i], s) {
      if i < |a| {
        assert Encloses(a, n, a[i], s) && r[s - n] == a[s - n];
      } else {
        assert Encloses(b, n + |a|, b[i - |a|], s) && r[s - n] == b[s - n - |a|];
      }
    }
  }

  /** A struct in front of its fields. */
  lemma {:induction false} NestedStruct(v: Visit, b: seq<Visit>, n: nat, up: seq<nat>)
    requires v.arg.GroupArg? && v.arg.typ.StructT? && v.up == up && Nested(b, n + 1, [n] + up)
    requires forall w :: w in b && w.obj == v.obj ==> Between(w, v.base, v.off, v.off + Size(v.arg))
    ensures Nested([v] + b, n, up)
  {
    var r := [v] + b;
    forall i, s | 0 <= i < |r| && s in r[i].up && s !in up ensures Encloses(r, n, r[i], s) {
      assert i > 0 && r[i] == b[i - 1] && s in b[i - 1].up;
      if s == n {
        assert r[i] in b;
      } else {
        assert s !in [n] + up;
        assert Encloses(b, n + 1, b[i - 1], s) && r[s - n] == b[s - n - 1];
      }
    }
  }

  lemma {:induction false} NestedFront(v: Visit, b: seq<Visit>, n: nat, up: seq<nat>)
    requires (forall s :: s in v.up ==> s in up) && Nested(b, n + 1, up)
    ensures Nested([v] + b, n, up)
  {
    var r := [v] + b;
    forall i, s | 0 <= i < |r| && s in r[i].up && s !in up ensures Encloses(r, n, r[i], s) {
      assert i > 0 && r[i] == b[i - 1] && s in b[i - 1].up;
      assert Encloses(b, n + 1, b[i - 1], s) && r[s - n] == b[s - n - 1];
    }
  }

  lemma {:induction false} NestedMore(r: seq<Visit>, n: nat, up: seq<nat>, more: seq<nat>)
    requires Nested(r, n, up) && forall s :: s in up ==> s in more
    ensures Nested(r, n, more)
  {
  }

  lemma {:induction false} VisitsNested(tgt: Target, a: Arg, n: nat, base: Option<U64>, off: nat, obj: nat,
      up: seq<nat>)
    requires Fitting(a) && obj <= n
    ensures Nested(Visits(tgt, a, n, base, off, obj, up), n, up)
    decreases a, 1
  {
    match a
    case PointerArg(t, _, _, res) =>
      var v := Visit(a, base, off, obj, if t.PtrT? then [] else up);
      if res.Some? {
        var below := if t.PtrT? then up else [];
        VisitsNested(tgt, res.value, n + 1, Some(PointeeBase(tgt, a)), 0, n + 1, below);
        var rest := Visits(tgt, res.value, n + 1, Some(PointeeBase(tgt, a)), 0, n + 1, below);
        NestedMore(rest, n + 1, below, up);
        NestedFront(v, rest, n, up);
      } else {
        NestedFront(v, [], n, up);
      }
    case GroupArg(t, inner) =>
      var v := Visit(a, base, off, obj, up);
      var below := if t.StructT? then [n] + up else [];
      var rest := VisitsSeq(tgt, inner, n + 1, base, off, obj, below);
      SeqNested(tgt, inner, n + 1, base, off, obj, below);
      if t.StructT? {
        ExtentSeq(tgt, inner, n + 1, base, off, obj, below);
        NestedStruct(v, rest, n, up);
      } else {
        NestedMore(rest, n + 1, below, up);
        NestedFront(v, rest, n, up);
      }
    case UnionArg(_, option) =>
      var rest := Visits(tgt, option, n + 1, base, off, obj, []);
      VisitsNested(tgt, option, n + 1, base, off, obj, []);
      NestedMore(rest, n + 1, [], up);
      NestedFront(Visit(a, base, off, obj, up), rest, n, up);
    case _ =>
  }

  lemma {:induction false} SeqNested(tgt: Target, args: seq<Arg>, n: nat, base: Option<U64>, off: nat, obj: nat,
      up: seq<nat>)
    requires FittingSeq(args) && obj <= n
    ensures Nested(VisitsSeq(tgt, args, n, base, off, obj, up), n, up)
    decreases args, 0
  {
    if args != [] {
      VisitsNested(tgt, args[0], n, base, off, obj, up);
      SeqNested(tgt, args[1..], n + Count(args[0]), base, off + Size(args[0]), obj, up);
      NestedJoin(Visits(tgt, args[0], n, base, off, obj, up),
                 VisitsSeq(tgt, args[1..], n + Count(args[0]), base, off + Size(args[0]), obj, up), n, up);
    }
  }

  lemma {:induction false} TopNested(tgt: Target, args: seq<Arg>, n: nat)
    requires FittingSeq(args)
    ensures Nested(VisitsTop(tgt, args, n), n, [])
    decreases args
  {
    if args != [] {
      VisitsNested(tgt, args[0], n, None, 0, 0, []);
      TopNested(tgt, args[1..], n + Count(args[0]));
      NestedJoin(Visits(tgt, args[0], n, None, 0, 0, []), VisitsTop(tgt, args[1..], n + Count(args[0])), n, []);
    }
  }

  /** The struct that a field covers holds the field, unless a pointer lies between. */
  lemma {:induction false} FieldInside(tgt: Target, args: seq<Arg>, k: nat)
    requires FittingSeq(args) && IsField(VisitsTop(tgt, args, 0), k)
    ensures var vs := VisitsTop(tgt, args, 0);
      Find(vs, k).Some? ==>
        var s := vs[Find(vs, k).value];
        s.arg.typ.StructT? && (s.obj == vs[k].obj ==> Between(vs[k], s.base, s.off, s.off + Size(s.arg)))
  {
    var vs := VisitsTop(tgt, args, 0);
    TopNested(tgt, args, 0);
    if Find(vs, k).Some? {
      var s := Find(vs, k).value;
      assert s in vs[k].up && s !in [];
      assert Encloses(vs, 0, vs[k], s) && vs[s - 0] == vs[s];
    }
  }

  /** A field that covers its parent covers the struct that it is a field of. */
  lemma {:induction false} ParentFound(tgt: Target, args: seq<Arg>, k: nat)
    requires IsField(VisitsTop(tgt, args, 0), k) && VisitsTop(tgt, args, 0)[k].arg.typ.buf == "parent"
    ensures var vs := VisitsTop(tgt, args, 0);
      match Find(vs, k)
      case Some(s) => IsFieldOf(vs, s, k)
      case None => vs[k].up == []
  {
    CallParents(tgt, args, 0);
    var vs := VisitsTop(tgt, args, 0);
    assert HasParent(vs, 0, [], Chain(vs, 0, k), k);
  }

  // ----- what is left to ask of the descriptions -----

  /** The field is two bytes in the object that it covers, at an even offset, the addresses of the
      header are elsewhere, and nothing is too long for the accumulator. */
  ghost predicate FieldLaid(vs: seq<Visit>, k: nat, limit: nat)
    requires IsField(vs, k) && Find(vs, k).Some?
  {
    var v, s, h := vs[k], vs[Find(vs, k).value], FindHeader(vs, |vs|);
    && v.base.Some? && Size(v.arg) == 2 && UnitOffset(v.arg.typ) == 0
    && s.obj == v.obj && (v.off - s.off) % 2 == 0 && s.base.Some? && s.base.value + s.off + Size(s.arg) <= limit < TWO64
    && Size(s.arg) <= C.MAX_CHUNK
    && (IsPseudo(vs, k) && h.Addresses? ==> Elsewhere(vs[h.src], v, limit) && Elsewhere(vs[h.dst], v, limit))
  }

  predicate Elsewhere(w: Visit, v: Visit, limit: nat) {
    var p, f := PlaceOf(w), PlaceOf(v).addr;
    p.addr + p.size <= limit && p.size <= C.MAX_CHUNK && (p.addr + p.size <= f || f + 2 <= p.addr)
  }

  lemma {:induction false} EmitAt(cs: seq<CsumChunk>, places: map<nat, Place>, i: nat)
    requires ChunksKnown(cs, places) && i < |cs|
    ensures |RunChunks(EmitChunks(cs, places))| == |cs|
    ensures var r := RunChunks(EmitChunks(cs, places))[i];
      match cs[i]
      case ArgChunk(a) => r == C.DataChunk(places[a].addr, places[a].size)
      case ConstChunk(_, size) => r.ConstChunk? && |r.bytes| == size
    decreases cs
  {
    if i > 0 {
      EmitAt(cs[1..], places, i - 1);
      assert EmitChunks(cs, places)[i] == EmitChunks(cs[1..], places)[i - 1];
    }
  }

  /** Every field is in its own region once, at an even offset, inside memory. */
  lemma {:induction false} FieldCovered(tgt: Target, args: seq<Arg>, k: nat, limit: nat)
    requires FittingSeq(args)
    requires var vs := VisitsTop(tgt, args, 0); Calc(vs).Some? && IsField(vs, k) && FieldLaid(vs, k, limit)
    ensures var vs := VisitsTop(tgt, args, 0);
      var csums, places := Calc(vs).value, Places(vs);
      && Known(csums, places) && k in csums && places[k].addr + 2 <= limit
      && C.ChunksIn(Region(csums, places, k), limit) && C.CoversOnce(Region(csums, places, k), places[k].addr)
  {
    var vs := VisitsTop(tgt, args, 0);
    CalcKnown(vs);
    FieldInside(tgt, args, k);
    CoveredChunks(vs, k, limit);
  }

  /** The chunks of a field: constants and header addresses, and the region last. */
  lemma {:induction false} ChunkAt(vs: seq<Visit>, h: Header, k: nat, i: nat)
    requires IsField(vs, k) && Find(vs, k).Some? && (h.Addresses? ==> h.src < |vs|)
    requires (IsPseudo(vs, k) ==> h.Addresses?)
    requires i < |ChunksOf(vs, h, k)|
    ensures var cs := ChunksOf(vs, h, k);
      && (i == |cs| - 1 ==> cs[i] == ArgChunk(Find(vs, k).value))
      && (i < |cs| - 1 ==>
            && IsPseudo(vs, k)
            && (cs[i] == ArgChunk(h.src) || cs[i] == ArgChunk(h.dst) ||
                 (cs[i].ConstChunk? && (cs[i].size == 2 || cs[i].size == 4))))
  {
  }

  predicate IsConst(c: C.Chunk) {
    c.ConstChunk? && (|c.bytes| == 2 || |c.bytes| == 4)
  }

  predicate IsAddress(vs: seq<Visit>, h: Header, c: C.Chunk)
    requires h.Addresses? && h.src < |vs| && h.dst < |vs|
  {
    var src, dst := PlaceOf(vs[h.src]), PlaceOf(vs[h.dst]);
    c == C.DataChunk(src.addr, src.size) || c == C.DataChunk(dst.addr, dst.size)
  }

  lemma {:induction false} RegionChunk(vs: seq<Visit>, k: nat, i: nat)
    requires Calc(vs).Some? && IsField(vs, k) && Known(Calc(vs).value, Places(vs)) && k in Calc(vs).value
    requires i < |Calc(vs).value[k]|
    ensures var csums, places, h := Calc(vs).value, Places(vs), FindHeader(vs, |vs|);
      var r, p := Region(csums, places, k), PlaceOf(vs[Find(vs, k).value]);
      && |r| == |csums[k]|
      && (i == |r| - 1 ==> r[i] == C.DataChunk(p.addr, p.size))
      && (i < |r| - 1 ==> IsConst(r[i]) || (IsPseudo(vs, k) && h.Addresses? && IsAddress(vs, h, r[i])))
  {
    ChunkAt(vs, FindHeader(vs, |vs|), k, i);
    EmitAt(Calc(vs).value[k], Places(vs), i);
  }

  /** A chunk of the region: inside memory, and apart from the field unless it is the last one. */
  ghost predicate ChunkFine(r: seq<C.Chunk>, i: nat, f: nat, limit: nat, whole: Place)
    requires i < |r|
  {
    && C.ChunkIn(r[i], limit) && (i < |r| - 1 ==> C.Apart(r[i], f))
    && (i == |r| - 1 ==> r[i] == C.DataChunk(whole.addr, whole.size))
  }

  lemma {:induction false} ChunkIsFine(vs: seq<Visit>, k: nat, i: nat, limit: nat)
    requires Calc(vs).Some? && IsField(vs, k) && Known(Calc(vs).value, Places(vs)) && k in Calc(vs).value
    requires FieldLaid(vs, k, limit)
    requires i < |Calc(vs).value[k]|
    requires var w := PlaceOf(vs[Find(vs, k).value]); w.addr + w.size <= limit && w.size <= C.MAX_CHUNK
    ensures var r := Region(Calc(vs).value, Places(vs), k);
      |r| == |Calc(vs).value[k]| && ChunkFine(r, i, PlaceOf(vs[k]).addr, limit, PlaceOf(vs[Find(vs, k).value]))
  {
    RegionChunk(vs, k, i);
    var r, h := Region(Calc(vs).value, Places(vs), k), FindHeader(vs, |vs|);
    if i < |r| - 1 && !r[i].ConstChunk? {
      assert Elsewhere(vs[h.src], vs[k], limit) && Elsewhere(vs[h.dst], vs[k], limit);
    }
  }

  lemma {:induction false} OnceCovered(r: seq<C.Chunk>, f: nat, limit: nat, whole: Place)
    requires |r| > 0 && forall i | 0 <= i < |r| :: ChunkFine(r, i, f, limit, whole)
    requires whole.addr <= f && f + 2 <= whole.addr + whole.size && (f - whole.addr) % 2 == 0
    ensures C.ChunksIn(r, limit) && C.CoversOnce(r, f)
  {
    var last := |r| - 1;
    assert ChunkFine(r, last, f, limit, whole);
    forall i | 0 <= i < |r| ensures C.ChunkIn(r[i], limit) && (i != last ==> C.Apart(r[i], f)) {
      assert ChunkFine(r, i, f, limit, whole);
    }
    assert r[last].DataChunk?;
  }

  lemma {:induction false} CoveredChunks(vs: seq<Visit>, k: nat, limit: nat)
    requires Calc(vs).Some? && IsField(vs, k) && Known(Calc(vs).value, Places(vs)) && k in Calc(vs).value
    requires FieldLaid(vs, k, limit)
    requires var s := vs[Find(vs, k).value]; s.arg.typ.StructT? && Between(vs[k], s.base, s.off, s.off + Size(s.arg))
    ensures var csums, places := Calc(vs).value, Places(vs);
      && places[k].addr + 2 <= limit
      && C.ChunksIn(Region(csums, places, k), limit) && C.CoversOnce(Region(csums, places, k), places[k].addr)
  {
    var v, s, r := vs[k], vs[Find(vs, k).value], Region(Calc(vs).value, Places(vs), k);
    PlaceInside(v, s, limit);
    AllFine(vs, k, limit);
    OnceCovered(r, PlaceOf(v).addr, limit, PlaceOf(s));
  }

  lemma {:induction false} AllFine(vs: seq<Visit>, k: nat, limit: nat)
    requires Calc(vs).Some? && IsField(vs, k) && Known(Calc(vs).value, Places(vs)) && k in Calc(vs).value
    requires FieldLaid(vs, k, limit)
    requires var s := vs[Find(vs, k).value]; s.arg.typ.StructT? && Between(vs[k], s.base, s.off, s.off + Size(s.arg))
    ensures var r, whole := Region(Calc(vs).value, Places(vs), k), PlaceOf(vs[Find(vs, k).value]);
      |r| > 0 && forall i :: 0 <= i < |r| ==> ChunkFine(r, i, PlaceOf(vs[k]).addr, limit, whole)
  {
    var r := Region(Calc(vs).value, Places(vs), k);
    ChunkIsFine(vs, k, 0, limit);
    forall i | 0 <= i < |r|
      ensures ChunkFine(r, i, PlaceOf(vs[k]).addr, limit, PlaceOf(vs[Find(vs, k).value]))
    {
      ChunkIsFine(vs, k, i, limit);
    }
  }

  /** A field at an even offset in the struct around it. */
  lemma {:induction false} PlaceInside(v: Visit, s: Visit, limit: nat)
    requires v.base.Some? && Size(v.arg) == 2 && UnitOffset(v.arg.typ) == 0 && !HasBits(s.arg.typ)
    requires Between(v, s.base, s.off, s.off + Size(s.arg)) && (v.off - s.off) % 2 == 0
    requires s.base.value + s.off + Size(s.arg) <= limit < TWO64 && Size(s.arg) <= C.MAX_CHUNK
    ensures var p, f := PlaceOf(s), PlaceOf(v).addr;
      p.addr <= f && f + 2 <= p.addr + p.size <= limit && p.size <= C.MAX_CHUNK && (f - p.addr) % 2 == 0
  {
    assert PlaceOf(v).addr == v.base.value + v.off && PlaceOf(s) == Place(s.base.value + s.off, Size(s.arg));
  }

  // ----- the whole call -----

  /** All fields are laid out so, and a region holds other fields only at higher addresses. */
  ghost predicate LaidOut(vs: seq<Visit>, limit: nat) {
    && Calc(vs).Some? && Known(Calc(vs).value, Places(vs))
    && (forall k | 0 <= k < |vs| && IsField(vs, k) :: Find(vs, k).Some? && FieldLaid(vs, k, limit))
    && (forall k, l :: k in Calc(vs).value && l in Calc(vs).value && k != l ==>
         FieldsApart(Calc(vs).value, Places(vs), k, l))
  }

  /** So the map of the call is one that the writer of instructions handles. */
  lemma {:induction false} LaidOutSound(tgt: Target, args: seq<Arg>, limit: nat)
    requires FittingSeq(args) && LaidOut(VisitsTop(tgt, args, 0), limit)
    ensures var vs := VisitsTop(tgt, args, 0); Sound(Calc(vs).value, Places(vs), limit)
  {
    var vs := VisitsTop(tgt, args, 0);
    CalcKnown(vs);
    forall k | k in Calc(vs).value
      ensures Places(vs)[k].addr + 2 <= limit
      ensures C.ChunksIn(Region(Calc(vs).value, Places(vs), k), limit)
      ensures C.CoversOnce(Region(Calc(vs).value, Places(vs), k), Places(vs)[k].addr)
    {
      FieldCovered(tgt, args, k, limit);
    }
  }

  /** A field that is copied in: a plain two-byte integer. */
  predicate IsPlain(v: Visit) {
    && v.arg.ConstArg? && v.arg.typ.CsumT? && v.arg.typ.com.dir != DirOut && v.arg.typ.com.size == 2
    && v.arg.typ.bits.len == 0 && v.arg.typ.bits.off == 0 && v.base.Some?
  }

  function ZeroOf(v: Visit): Copyin
    requires v.arg.typ.CsumT?
  {
    ZeroAt(PlaceOf(v).addr, v.arg.typ.bits.format)
  }

  lemma {:induction false} TopCopied(tgt: Target, infos: Infos, args: seq<Arg>, v: Visit)
    requires StaticCopyinsTop(tgt, infos, args).Some? && v in VisitsTop(tgt, args, 0) && IsPlain(v)
    ensures ZeroOf(v) in StaticCopyinsTop(tgt, infos, args).value
  {
    var vs := VisitsTop(tgt, args, 0);
    CopyinsTopInOrder(tgt, infos, args, 0);
    var k :| 0 <= k < |vs| && vs[k] == v;
    OwnIn(tgt, infos, vs, k);
    CsumCopyin(tgt, infos, v.arg, v.base.value, v.off);
    assert [ZeroOf(v)][0] == ZeroOf(v);
  }

  /** Nothing but its own copyin falls on a field. */
  ghost predicate OthersMiss(ins: seq<Copyin>, v: Visit)
    requires v.arg.typ.CsumT?
  {
    forall i | 0 <= i < |ins| ::
        ins[i] == ZeroOf(v) || (Misses(ins[i], PlaceOf(v).addr) && Misses(ins[i], PlaceOf(v).addr + 1))
  }

  lemma {:induction false} LastCopyin(ins: seq<Copyin>, v: Visit)
    requires v.arg.typ.CsumT? && ZeroOf(v) in ins && OthersMiss(ins, v)
    ensures ZeroedBy(ins, PlaceOf(v).addr)
    decreases ins
  {
    var n := |ins| - 1;
    var f, init := PlaceOf(v).addr, ins[..n];
    var g: nat := PlaceOf(v).addr + 1;
    if ins[n] == ZeroOf(v) {
      assert ins[n] == ZeroAt(f, v.arg.typ.bits.format);
    } else {
      assert OthersMiss(init, v) by { assert forall i | 0 <= i < n :: init[i] == ins[i]; }
      assert ins == init + [ins[n]];
      LastCopyin(init, v);
      var i, format :| 0 <= i < |init| && init[i] == ZeroAt(f, format) &&
                       forall j :: i < j < |init| ==> Misses(init[j], f) && Misses(init[j], g);
      assert ins[i] == ZeroAt(f, format);
      forall j | i < j < |ins| ensures Misses(ins[j], f) && Misses(ins[j], g) { if j < n { assert ins[j] == init[j]; } }
    }
  }

  /** The fields without a pseudo-header have their chunks, the others are listed. */
  ghost predicate InetDone(vs: seq<Visit>, n: nat, csums: CsumMap, pseudo: seq<nat>) {
    && (forall l: nat :: l in csums <==> l < n && IsField(vs, l) && !IsPseudo(vs, l))
    && (forall l: nat :: l in csums ==> Find(vs, l).Some? && csums[l] == [ArgChunk(Find(vs, l).value)])
    && (forall l: nat :: l in pseudo <==> l < n && IsPseudo(vs, l))
  }

  method InetChecksums(vs: seq<Visit>) returns (ok: bool, csums: CsumMap, pseudo: seq<nat>)
    ensures !ok ==> !AllFound(vs)
    ensures ok ==> InetDone(vs, |vs|, csums, pseudo)
  {
    csums, pseudo := map[], [];
    for k := 0 to |vs|
      invariant InetDone(vs, k, csums, pseudo)
    {
      if vs[k].arg.typ.CsumT? {
        if vs[k].arg.typ.csumKind == CsumPseudo {
          pseudo := pseudo + [k];
        } else {
          var packet := Find(vs, k);
          if packet.None? {
            assert IsField(vs, k);
            return false, csums, pseudo;
          }
          csums := csums[k := [ArgChunk(packet.value)]];
        }
      }
    }
    ok := true;
  }

  method PseudoChecksums(vs: seq<Visit>, h: Header, inet: CsumMap, pseudo: seq<nat>) returns (ok: bool, csums: CsumMap)
    requires h.Addresses? && h.src < |vs| && h.dst < |vs| && InetDone(vs, |vs|, inet, pseudo)
    ensures !ok ==> !AllFound(vs)
    ensures ok ==> forall l: nat :: l in csums <==> IsField(vs, l)
    ensures ok ==> forall l: nat :: l in csums ==> IsField(vs, l) && Find(vs, l).Some? && csums[l] == ChunksOf(vs, h, l)
  {
    csums := inet;
    for j := 0 to |pseudo|
      invariant forall l: nat :: l in csums <==> l in inet || l in pseudo[..j]
      invariant forall l: nat :: l in csums ==> IsField(vs, l) && Find(vs, l).Some? && csums[l] == ChunksOf(vs, h, l)
    {
      var k := pseudo[j];
      assert k in pseudo && IsPseudo(vs, k);
      var packet := Find(vs, k);
      if packet.None? {
        assert IsField(vs, k);
        return false, csums;
      }
      assert pseudo[..j + 1] == pseudo[..j] + [k];
      csums := csums[k := PseudoChunks(vs, h, packet.value, vs[k].arg.typ.protocol)];
    }
    assert pseudo[..|pseudo|] == pseudo;
    ok := true;
  }

  /** calcChecksumsCall as the source runs it: the fields without a pseudo-header first, then the
      header, then the others. */
  method CalcChecksums(vs: seq<Visit>) returns (r: Option<CsumMap>)
    ensures r == Calc(vs)
  {
    var ok, csums, pseudo := InetChecksums(vs);
    if !ok {
      return None;
    }
    var h := FindHeader(vs, |vs|);
    if pseudo == [] {
      NoPseudo(vs, pseudo);
    } else {
      assert IsPseudo(vs, pseudo[0]) by { assert pseudo[0] in pseudo; }
      if !h.Addresses? {
        return None;
      }
      ok, csums := PseudoChecksums(vs, h, csums, pseudo);
      if !ok {
        return None;
      }
    }
    IsCalc(vs, h, csums);
    r := Some(csums);
  }

  lemma {:induction false} IsCalc(vs: seq<Visit>, h: Header, csums: CsumMap)
    requires h == FindHeader(vs, |vs|) && (SomePseudo(vs) ==> h.Addresses?)
    requires forall l: nat :: l in csums <==> IsField(vs, l)
    requires forall l: nat :: l in csums ==>
      IsField(vs, l) && Find(vs, l).Some? && (IsPseudo(vs, l) ==> h.Addresses?) && csums[l] == ChunksOf(vs, h, l)
    ensures Calc(vs) == Some(csums)
  {
    assert AllFound(vs);
    assert csums == Calc(vs).value;
  }

  lemma {:induction false} NoPseudo(vs: seq<Visit>, pseudo: seq<nat>)
    requires pseudo == [] && forall l: nat :: l in pseudo <==> l < |vs| && IsPseudo(vs, l)
    ensures !SomePseudo(vs)
  {
    forall k | 0 <= k < |vs| ensures !IsPseudo(vs, k) { assert k !in pseudo; }
  }

  /** The checksums of a call, from its arguments to memory: after its copyins, the instructions for
      the fields that calcChecksumsCall finds make every region sum to all ones at once, and change
      no byte but those of the fields. */
  method RunCall(tgt: Target, infos: Infos, args: seq<Arg>, mem: array<Byte>, ghost m: Machine, ghost start: Mem)
    requires FittingSeq(args) && LaidOut(VisitsTop(tgt, args, 0), mem.Length)
    requires StaticCopyinsTop(tgt, infos, args).Some?
    requires var ins := StaticCopyinsTop(tgt, infos, args).value;
      && Run(m, start, ins).Some? && ChecksumWriter.Holds(mem[..], Run(m, start, ins).value)
      && forall v :: v in VisitsTop(tgt, args, 0) && v.arg.typ.CsumT? ==> IsPlain(v) && OthersMiss(ins, v)
    modifies mem
    ensures var vs := VisitsTop(tgt, args, 0); Summed(Calc(vs).value, Places(vs), old(mem[..]), mem[..])
  {
    var vs := VisitsTop(tgt, args, 0);
    var csums := CalcChecksums(vs);
    ghost var ins := StaticCopyinsTop(tgt, infos, args).value;
    CalcKnown(vs);
    LaidOutSound(tgt, args, mem.Length);
    forall k | k in csums.value ensures ZeroedBy(ins, Places(vs)[k].addr) {
      assert vs[k] in vs;
      TopCopied(tgt, infos, args, vs[k]);
      LastCopyin(ins, vs[k]);
    }
    RunCallChecksums(csums.value, Places(vs), mem, m, start, ins);
  }

  // ----- the compiler's view -----

  /** Checksum instructions refer to no result. */
  lemma {:induction false} WrittenPlain(csums: CsumMap, places: map<nat, Place>, out: seq<Copyin>, order: seq<nat>)
    requires Known(csums, places) && |out| == |order|
    requires forall i :: 0 <= i < |out| ==> order[i] in csums && out[i] == Emit(csums, places, order[i])
    ensures ResultWords(CopyinArgs(out)) == []
    decreases out
  {
    if out != [] {
      assert out[0] == Emit(csums, places, order[0]);
      assert forall i :: 0 <= i < |out| - 1 ==> out[1..][i] == out[i + 1] && order[1..][i] == order[i + 1];
      WrittenPlain(csums, places, out[1..], order[1..]);
      assert CopyinArgs(out)[1..] == CopyinArgs(out[1..]);
    }
  }
}
