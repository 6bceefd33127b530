/**
  How the executor publishes results: records are appended to a shared array and become
  visible when word 0, the number of completed records, is raised
  (executor/executor.cc, write_output, write_call_output, write_completed).  The fuzzer
  reads them back with parseOutput (pkg/ipc/ipc.go).

  The two processes share the words, so the reader may look after every single store.  The
  ghost field `history` holds the memory after each one, and the contracts say of every entry
  what a reader gets from it.
 */
module Publication {
  import opened Ir

  type U32 = x: int | 0 <= x < 0x1_0000_0000

  /** A comparison: its type, and two operands of one word each, or two each for 8-byte ones. */
  datatype Comp = Comp(typ: U32, operands: seq<U32>)

  datatype Record = Record(callIndex: U32, callNum: U32, errno: U32, flags: U32,
                           signal: seq<U32>, cover: seq<U32>, comps: seq<Comp>)

  /** Number of operand words for a comparison type (KCOV_CMP_SIZE_MASK is 6, SIZE8 is 6). */
  function OperandWords(typ: U32): nat { if typ / 2 % 4 == 3 then 4 else 2 }

  /** Types 6 and 7 are those of 8-byte operands. */
  predicate CompOk(c: Comp) { c.typ <= 7 && |c.operands| == if c.typ in {6, 7} then 4 else 2 }

  predicate CompsOk(cs: seq<Comp>) { forall i :: 0 <= i < |cs| ==> CompOk(cs[i]) }

  predicate RecordOk(r: Record) {
    |r.signal| < 0x1_0000_0000 && |r.cover| < 0x1_0000_0000 && |r.comps| < 0x1_0000_0000 && CompsOk(r.comps)
  }

  function EncComps(cs: seq<Comp>): seq<U32> {
    if cs == [] then [] else [cs[0].typ] + cs[0].operands + EncComps(cs[1..])
  }

  function Header(r: Record): seq<U32>
    requires RecordOk(r)
  {
    [r.callIndex, r.callNum, r.errno, r.flags, |r.signal|, |r.cover|, |r.comps|]
  }

  function EncRecord(r: Record): seq<U32>
    requires RecordOk(r)
  {
    Header(r) + (r.signal + (r.cover + EncComps(r.comps)))
  }

  predicate RecordsOk(rs: seq<Record>) { forall i :: 0 <= i < |rs| ==> RecordOk(rs[i]) }

  function EncRecords(rs: seq<Record>): seq<U32>
    requires RecordsOk(rs)
  {
    if rs == [] then [] else EncRecord(rs[0]) + EncRecords(rs[1..])
  }

  // ----- the reader -----

  /** What reading gives: a value, an error, or an index panic. */
  datatype Parsed<+T> = Got(value: T) | Refused | Panicked

  /** readUint32Array takes the address of the first word, even to read none. */
  function ReadArray(out: seq<U32>, n: nat): (r: Parsed<(seq<U32>, seq<U32>)>)
    ensures r.Got? ==> |r.value.1| <= |out|
  {
    if |out| < n then Refused else if out == [] then Panicked else Got((out[..n], out[n..]))
  }

  /** readComps, whose words are read one by one. */
  function ReadComps(out: seq<U32>, n: nat): (r: Parsed<(seq<Comp>, seq<U32>)>)
    ensures !r.Panicked? && (r.Got? ==> |r.value.1| <= |out|)
    decreases n
  {
    if n == 0 then Got(([], out))
    else if |out| == 0 || out[0] > 7 || |out| - 1 < OperandWords(out[0]) then Refused
    else
      var k := 1 + OperandWords(out[0]);
      match ReadComps(out[k..], n - 1)
      case Got((cs, rest)) => Got(([Comp(out[0], out[1..k])] + cs, rest))
      case _ => Refused
  }

  function ReadRecord(out: seq<U32>): (r: Parsed<(Record, seq<U32>)>)
    requires |out| >= 7
    ensures r.Got? ==> |r.value.1| < |out|
  {
    match ReadArray(out[7..], out[4])
    case Refused => Refused
    case Panicked => Panicked
    case Got((signal, out1)) =>
      match ReadArray(out1, out[5])
      case Refused => Refused
      case Panicked => Panicked
      case Got((cover, out2)) =>
        match ReadComps(out2, out[6])
        case Got((comps, out3)) => Got((Record(out[0], out[1], out[2], out[3], signal, cover, comps), out3))
        case _ => Refused
  }

  /** extraReplyIndex: a record that belongs to no call. */
  const EXTRA: U32 := 0xffff_ffff

  /** The checks made on the head of a record; `nums` are the numbers of the calls, and `seen`
      those that already have a record. */
  predicate HeadOk(index: U32, num: U32, nums: seq<U32>, seen: set<U32>) {
    index == EXTRA || (index < |nums| && num == nums[index] && index !in seen)
  }

  function Seen(index: U32, seen: set<U32>): set<U32> {
    if index == EXTRA then seen else seen + {index}
  }

  function ReadRecords(out: seq<U32>, n: nat, nums: seq<U32>, seen: set<U32>): Parsed<seq<Record>>
    decreases n
  {
    if n == 0 then Got([])
    else if |out| < 7 || !HeadOk(out[0], out[1], nums, seen) then Refused
    else
      match ReadRecord(out)
      case Refused => Refused
      case Panicked => Panicked
      case Got((r, rest)) =>
        match ReadRecords(rest, n - 1, nums, Seen(r.callIndex, seen))
        case Got(rs) => Got([r] + rs)
        case Refused => Refused
        case Panicked => Panicked
  }

  /** parseOutput up to the conversion into ProgInfo: the count in word 0, then the records. */
  function ParseOutput(data: seq<U32>, nums: seq<U32>): Parsed<seq<Record>> {
    if data == [] then Refused else ReadRecords(data[1..], data[0], nums, {})
  }

  /** The last record ends with its signal. */
  predicate Bare(rs: seq<Record>) {
    rs != [] && rs[|rs| - 1].cover == [] && rs[|rs| - 1].comps == []
  }

  /** What the reader should get from records that are followed by nothing if `full`. */
  function Expected(rs: seq<Record>, nums: seq<U32>, seen: set<U32>, full: bool): Parsed<seq<Record>> {
    if !Accepts(rs, nums, seen) then Refused else if full && Bare(rs) then Panicked else Got(rs)
  }

  lemma {:induction false} ReadCompsEnc(cs: seq<Comp>, tail: seq<U32>)
    requires CompsOk(cs)
    ensures ReadComps(EncComps(cs) + tail, |cs|) == Got((cs, tail))
    decreases cs
  {
    var out := EncComps(cs) + tail;
    if cs == [] {
      assert out == tail;
    } else {
      var c, rest := cs[0], EncComps(cs[1..]) + tail;
      EncCompsHead([c.typ], c.operands, EncComps(cs[1..]), tail);
      ReadCompsEnc(cs[1..], tail);
      ReadCompsStep(c, rest, cs[1..], tail);
      assert [c] + cs[1..] == cs;
    }
  }

  lemma {:induction false} EncCompsHead(a: seq<U32>, b: seq<U32>, c: seq<U32>, d: seq<U32>)
    ensures a + b + c + d == a + (b + (c + d))
  {
  }

  lemma {:induction false} ReadCompsStep(c: Comp, rest: seq<U32>, more: seq<Comp>, tail: seq<U32>)
    requires CompOk(c) && ReadComps(rest, |more|) == Got((more, tail))
    ensures ReadComps([c.typ] + (c.operands + rest), |more| + 1) == Got(([c] + more, tail))
  {
    var out, k := [c.typ] + (c.operands + rest), 1 + |c.operands|;
    assert out[1..k] == c.operands && out[k..] == rest;
  }

  lemma {:induction false} ReadArrayEnc(xs: seq<U32>, tail: seq<U32>)
    ensures ReadArray(xs + tail, |xs|) == if xs + tail == [] then Panicked else Got((xs, tail))
  {
    assert (xs + tail)[..|xs|] == xs && (xs + tail)[|xs|..] == tail;
  }

  lemma {:induction false} ReadRecordEnc(r: Record, tail: seq<U32>)
    requires RecordOk(r)
    ensures ReadRecord(EncRecord(r) + tail) == if tail == [] && Bare([r]) then Panicked else Got((r, tail))
  {
    var cs := EncComps(r.comps);
    var out := EncRecord(r) + tail;
    var body := r.signal + (r.cover + (cs + tail));
    assert out == Header(r) + body;
    assert out[7..] == body;
    assert out[0] == r.callIndex && out[1] == r.callNum && out[2] == r.errno && out[3] == r.flags;
    assert out[4] == |r.signal| && out[5] == |r.cover| && out[6] == |r.comps|;
    ReadArrayEnc(r.signal, r.cover + (cs + tail));
    ReadArrayEnc(r.cover, cs + tail);
    ReadCompsEnc(r.comps, tail);
  }

  lemma {:induction false} HeadOfRecord(r: Record, tail: seq<U32>)
    requires RecordOk(r)
    ensures var out := EncRecord(r) + tail; |out| >= 7 && out[0] == r.callIndex && out[1] == r.callNum
  {
    assert (EncRecord(r) + tail)[..7] == Header(r);
  }

  /** One turn of the loop over the records. */
  lemma {:induction false} ReadHead(r: Record, rest: seq<U32>, n: nat, nums: seq<U32>, seen: set<U32>)
    requires RecordOk(r) && HeadOk(r.callIndex, r.callNum, nums, seen) && (rest != [] || !Bare([r]))
    ensures ReadRecords(EncRecord(r) + rest, n + 1, nums, seen) ==
            match ReadRecords(rest, n, nums, Seen(r.callIndex, seen))
            case Got(rs) => Got([r] + rs)
            case Refused => Refused
            case Panicked => Panicked
  {
    HeadOfRecord(r, rest);
    ReadRecordEnc(r, rest);
  }

  lemma {:induction false} ReadNoHead(r: Record, rest: seq<U32>, n: nat, nums: seq<U32>, seen: set<U32>)
    requires RecordOk(r) && (!HeadOk(r.callIndex, r.callNum, nums, seen) || (rest == [] && Bare([r])))
    ensures ReadRecords(EncRecord(r) + rest, n + 1, nums, seen) ==
            if HeadOk(r.callIndex, r.callNum, nums, seen) then Panicked else Refused
  {
    HeadOfRecord(r, rest);
    ReadRecordEnc(r, rest);
  }

  lemma {:induction false} EncRecordsEmpty(rs: seq<Record>)
    requires RecordsOk(rs)
    ensures EncRecords(rs) == [] <==> rs == []
  {
    if rs != [] { HeadOfRecord(rs[0], EncRecords(rs[1..])); }
  }

  /** The reader gets every record, whatever follows them, unless it refuses one of them for its
      head, or the last one has neither coverage nor comparisons and nothing follows it. */
  lemma {:induction false} ReadRecordsEnc(rs: seq<Record>, tail: seq<U32>, nums: seq<U32>, seen: set<U32>)
    requires RecordsOk(rs)
    ensures ReadRecords(EncRecords(rs) + tail, |rs|, nums, seen) == Expected(rs, nums, seen, tail == [])
    decreases rs
  {
    if rs != [] {
      var r, more, rest := rs[0], rs[1..], EncRecords(rs[1..]) + tail;
      assert EncRecords(rs) + tail == EncRecord(r) + rest && [r] + more == rs;
      EncRecordsEmpty(more);
      if !HeadOk(r.callIndex, r.callNum, nums, seen) || (rest == [] && Bare([r])) {
        ReadNoHead(r, rest, |more|, nums, seen);
        assert rest == [] ==> more == [] && tail == [] && rs == [r] && Accepts(more, nums, Seen(r.callIndex, seen));
        assert Expected(rs, nums, seen, tail == []) == if HeadOk(r.callIndex, r.callNum, nums, seen) then Panicked
            else Refused;
        assert |rs| == |more| + 1;
      } else {
        ReadHead(r, rest, |more|, nums, seen);
        ReadRecordsEnc(more, tail, nums, Seen(r.callIndex, seen));
      }
    }
  }

  /** One record without signal in a memory of eight words, which is what write_output allows. */
  lemma {:induction false} FullMemoryPanics()
    ensures ParseOutput([1, 0, 0, 0, 0, 0, 0, 0], [0]).Panicked?
  {
    var r := Record(0, 0, 0, 0, [], [], []);
    ReadNoHead(r, [], 0, [0], {});
    assert EncRecord(r) + [] == [0, 0, 0, 0, 0, 0, 0];
    assert [1, 0, 0, 0, 0, 0, 0, 0][1..] == EncRecord(r) + [];
  }

  lemma {:induction false} EncRecordsSnoc(rs: seq<Record>, r: Record)
    requires RecordsOk(rs) && RecordOk(r)
    ensures EncRecords(rs + [r]) == EncRecords(rs) + EncRecord(r)
    decreases rs
  {
    if rs == [] {
      assert rs + [r] == [r] && [r][1..] == [];
      assert EncRecord(r) + [] == EncRecord(r) && [] + EncRecord(r) == EncRecord(r);
    } else {
      EncRecordsSnoc(rs[1..], r);
      assert (rs + [r])[1..] == rs[1..] + [r] && (rs + [r])[0] == rs[0];
      AppendAssoc(EncRecord(rs[0]), EncRecords(rs[1..]), EncRecord(r));
    }
  }

  lemma {:induction false} EncCompsSnoc(cs: seq<Comp>, c: Comp)
    ensures EncComps(cs + [c]) == EncComps(cs) + ([c.typ] + c.operands)
    decreases cs
  {
    if cs == [] {
      assert cs + [c] == [c] && [c][1..] == [];
    } else {
      EncCompsSnoc(cs[1..], c);
      assert (cs + [c])[1..] == cs[1..] + [c];
      AppendAssoc([cs[0].typ] + cs[0].operands, EncComps(cs[1..]), [c.typ] + c.operands);
    }
  }

  lemma {:induction false} AppendAssoc(a: seq<U32>, b: seq<U32>, c: seq<U32>)
    ensures (a + b) + c == a + (b + c)
  {
  }

  /** The elements whose mark is set, in order: what is left after dedup() or ignore(). */
  function Kept<T>(xs: seq<T>, keep: seq<bool>): seq<T>
    requires |keep| == |xs|
  {
    if xs == [] then []
    else Kept(xs[..|xs| - 1], keep[..|xs| - 1]) + if keep[|xs| - 1] then [xs[|xs| - 1]] else []
  }

  lemma {:induction false} KeptNext<T>(xs: seq<T>, keep: seq<bool>, i: nat)
    requires i < |keep| == |xs|
    ensures Kept(xs[..i + 1], keep[..i + 1]) == if keep[i] then Kept(xs[..i], keep[..i]) + [xs[i]]
        else Kept(xs[..i], keep[..i])
  {
    assert xs[..i + 1][..i] == xs[..i] && keep[..i + 1][..i] == keep[..i];
    assert Kept(xs[..i], keep[..i]) + [] == Kept(xs[..i], keep[..i]);
  }

  lemma {:induction false} KeptComps(cs: seq<Comp>, keep: seq<bool>)
    requires |keep| == |cs| && CompsOk(cs)
    ensures |Kept(cs, keep)| <= |cs| && CompsOk(Kept(cs, keep))
  {
    if cs != [] { KeptComps(cs[..|cs| - 1], keep[..|cs| - 1]); }
  }

  /** The checks parseOutput makes on the records, in order; `seen` are the calls that already
      have a reply. */
  predicate Accepts(rs: seq<Record>, nums: seq<U32>, seen: set<U32>)
    decreases rs
  {
    rs == [] ||
    (HeadOk(rs[0].callIndex, rs[0].callNum, nums, seen) && Accepts(rs[1..], nums, Seen(rs[0].callIndex, seen)))
  }

  predicate Fits(r: Record, nums: seq<U32>) {
    r.callIndex == EXTRA || (r.callIndex < |nums| && r.callNum == nums[r.callIndex])
  }

  /** At most one record per call. */
  predicate Distinct(rs: seq<Record>) {
    forall i, j :: 0 <= i < j < |rs| && rs[i].callIndex != EXTRA ==> rs[i].callIndex != rs[j].callIndex
  }

  /** parseOutput accepts exactly the outputs with well-formed records and at most one per call. */
  lemma {:induction false} AcceptsIff(rs: seq<Record>, nums: seq<U32>, seen: set<U32>)
    requires EXTRA !in seen
    ensures Accepts(rs, nums, seen) <==>
            (forall i :: 0 <= i < |rs| ==> Fits(rs[i], nums) && rs[i].callIndex !in seen) && Distinct(rs)
    decreases rs
  {
    if rs != [] {
      var r, rest := rs[0], rs[1..];
      AcceptsIff(rest, nums, Seen(r.callIndex, seen));
      assert forall i :: 0 <= i < |rest| ==> rest[i] == rs[i + 1];
      assert forall i :: 1 <= i < |rs| ==> rs[i] == rest[i - 1];
    }
  }

  // ----- the writer -----

  /** Patching a field of a header that is followed by `tail`. */
  lemma {:induction false} SetHead(callIndex: U32, callNum: U32, errno: U32, flags: U32, at: nat, n: U32, m: U32,
      tail: seq<U32>)
    requires at == 4 || at == 5 || at == 6
    ensures var head := [callIndex, callNum, errno, flags];
      && (at == 4 ==> (head + [0, 0, 0] + tail)[4 := n] == head + [n, 0, 0] + tail)
      && (at == 5 ==> (head + [n, 0, 0] + tail)[5 := m] == head + [n, m, 0] + tail)
      && (at == 6 ==> (head + [0, 0, 0] + tail)[6 := n] == head + [0, 0, n] + tail)
  {
  }

  lemma {:induction false} EncComparisons(r: Record)
    requires RecordOk(r) && r.signal == [] && r.cover == []
    ensures EncRecord(r) == [r.callIndex, r.callNum, r.errno, r.flags, 0, 0, |r.comps|] + EncComps(r.comps)
  {
    var cs := EncComps(r.comps);
    assert [] + cs == cs && [] + ([] + cs) == cs;
  }

  lemma {:induction false} EncCover(r: Record)
    requires RecordOk(r) && r.comps == []
    ensures EncRecord(r) == [r.callIndex, r.callNum, r.errno, r.flags, |r.signal|, |r.cover|, 0] + (r.signal + r.cover)
  {
    assert EncComps([]) == [];
    assert r.cover + [] == r.cover;
  }

  /** The memory shows the records `rs`, which end at `visible`. */
  ghost predicate Shows(words: seq<U32>, visible: nat, rs: seq<Record>) {
    1 <= visible <= |words| && RecordsOk(rs) && words[0] == |rs| && words[1..visible] == EncRecords(rs)
  }

  /** A store behind the records shown. */
  lemma {:induction false} StoreBehind(words: seq<U32>, visible: nat, rs: seq<Record>, at: nat, v: U32)
    requires Shows(words, visible, rs) && visible <= at < |words|
    ensures Shows(words[at := v], visible, rs)
  {
    assert words[at := v][1..visible] == words[1..visible];
  }

  lemma {:induction false} StoreNext(words: seq<U32>, visible: nat, pos: nat, v: U32)
    requires visible <= pos < |words|
    ensures words[pos := v][visible..pos + 1] == words[visible..pos] + [v]
  {
  }

  lemma {:induction false} StoreInside(words: seq<U32>, visible: nat, pos: nat, at: nat, v: U32)
    requires visible <= at < pos <= |words|
    ensures words[at := v][visible..pos] == words[visible..pos][at - visible := v]
  {
  }

  /** Raising the counter shows one record more. */
  lemma {:induction false} StoreCount(words: seq<U32>, visible: nat, rs: seq<Record>, pos: nat, r: Record)
    requires Shows(words, visible, rs) && visible <= pos <= |words| && RecordOk(r)
    requires words[visible..pos] == EncRecord(r)
    requires |rs| + 1 < 0x1_0000_0000
    ensures Shows(words[0 := |rs| + 1], pos, rs + [r])
  {
    EncRecordsSnoc(rs, r);
    assert words[0 := |rs| + 1][1..pos] == words[1..visible] + words[visible..pos];
  }

  /** A reader of the memory gets the records `rs`, which reach its end if `full`. */
  ghost predicate Reads(words: seq<U32>, rs: seq<Record>, full: bool) {
    forall nums :: ParseOutput(words, nums) == Expected(rs, nums, {}, full)
  }

  lemma {:induction false} ShownIsRead(words: seq<U32>, visible: nat, rs: seq<Record>)
    requires Shows(words, visible, rs)
    ensures Reads(words, rs, visible == |words|)
  {
    assert words[1..] == words[1..visible] + words[visible..];
    forall nums ensures ParseOutput(words, nums) == Expected(rs, nums, {}, visible == |words|) {
      ReadRecordsEnc(rs, words[visible..], nums, {});
    }
  }

  /** Entries of a history stay when it grows. */
  lemma {:induction false} HistoryGrows(h0: seq<seq<U32>>, h1: seq<seq<U32>>, h2: seq<seq<U32>>)
    requires |h0| <= |h1| <= |h2| && h1[..|h0|] == h0 && h2[..|h1|] == h1
    ensures h2[..|h0|] == h0 && forall i :: 0 <= i < |h1| ==> h2[i] == h1[i]
  {
    assert h2[..|h0|] == h2[..|h1|][..|h0|];
    assert forall i :: 0 <= i < |h1| ==> h2[i] == h2[..|h1|][i];
  }

  class Output {
    const data: array<U32>
    var pos: nat        // output_pos
    var completed: nat
    ghost var published: seq<Record>
    ghost var visible: nat  // end of the published records
    ghost var history: seq<seq<U32>> // the memory after each store

    /** What holds at every moment the other process may look. */
    ghost predicate Valid()
      reads this, data
    {
      1 <= visible <= pos <= data.Length && Shows(data[..], visible, published) && completed == |published|
    }

    /** The words of the record being written. */
    ghost function Pending(): seq<U32>
      reads this, data
      requires Valid()
    {
      data[..][visible..pos]
    }

    constructor (data: array<U32>)
      requires data.Length > 0
      modifies data
      ensures Valid() && this.data == data && published == [] && visible == 1 && Saw(0, |history|, [], data.Length == 1)
    {
      this.data := data;
      pos, completed, published, visible, history := 1, 0, [], 1, [];
      new;
      data[0] := 0;
      assert data[..][1..1] == EncRecords([]);
      Stored();
    }

    /** A reader of the first completed records gets exactly the published ones, or panics: exactly
        if they reach the end of memory and the last one has neither coverage nor comparisons. */
    lemma ReaderSees()
      requires Valid()
      ensures Reads(data[..], published, visible == data.Length)
    {
      ShownIsRead(data[..], visible, published);
    }

    /** A reader who looked after any of the stores from `lo` to `hi` got the records `rs`. */
    ghost predicate Saw(lo: nat, hi: nat, rs: seq<Record>, full: bool)
      reads this
      requires hi <= |history|
    {
      forall i :: lo <= i < hi ==> Reads(history[i], rs, full)
    }

    /** Every store is a moment at which the reader may look. */
    ghost method Stored()
      requires Valid()
      modifies this`history
      ensures history == old(history) + [data[..]] && Reads(data[..], published, visible == data.Length)
    {
      ReaderSees();
      history := history + [data[..]];
    }

    /** Nothing a reader can see has changed, at any moment since. */
    twostate predicate SameView()
      reads this, data
    {
      && completed == old(completed) && published == old(published) && visible == old(visible)
      && |old(history)| <= |history| && history[..|old(history)|] == old(history)
      && Saw(|old(history)|, |history|, published, visible == data.Length)
    }

    /** write_output; false is "output overflow", which ends the process. */
    method Write(v: U32) returns (ok: bool)
      requires Valid()
      modifies this`pos, this`history, data
      ensures Valid() && SameView()
      ensures (ok <==> old(pos) < data.Length) && (!ok ==> pos == old(pos))
      ensures ok ==> pos == old(pos) + 1 && Pending() == old(Pending()) + [v]
    {
      ok := pos < data.Length;
      if ok {
        ghost var words := data[..];
        StoreBehind(words, visible, published, pos, v);
        StoreNext(words, visible, pos, v);
        data[pos] := v;
        assert data[..] == words[pos := v];
        pos := pos + 1;
        Stored();
      }
    }

    method WriteSeq(vs: seq<U32>) returns (ok: bool)
      requires Valid()
      modifies this`pos, this`history, data
      ensures Valid() && SameView() && old(pos) <= pos
      ensures ok ==> Pending() == old(Pending()) + vs
    {
      ok := true;
      for i := 0 to |vs|
        invariant Valid() && SameView() && old(pos) <= pos
        invariant ok && Pending() == old(Pending()) + vs[..i]
      {
        ghost var h := history;
        ok := Write(vs[i]);
        HistoryGrows(old(history), h, history);
        if !ok { return; }
        assert vs[..i + 1] == vs[..i] + [vs[i]];
        AppendAssoc(old(Pending()), vs[..i], [vs[i]]);
      }
      assert vs[..|vs|] == vs;
    }

    /** Fill in a size field of the record being written. */
    method Patch(at: nat, v: U32)
      requires Valid() && visible <= at < pos
      modifies this`history, data
      ensures Valid() && SameView()
      ensures Pending() == old(Pending())[at - visible := v]
    {
      ghost var words := data[..];
      StoreBehind(words, visible, published, at, v);
      StoreInside(words, visible, pos, at, v);
      data[at] := v;
      assert data[..] == words[at := v];
      assert Shows(data[..], visible, published) && Pending() == words[visible..pos][at - visible := v];
      Stored();
    }

    /** One more word, if it is kept, behind those written since `before`. */
    method WriteIf(keep: bool, v: U32, ghost before: seq<U32>, ghost kept: seq<U32>) returns (ok: bool)
      requires Valid() && Pending() == before + kept
      modifies this`pos, this`history, data
      ensures Valid() && SameView() && old(pos) <= pos
      ensures ok ==> Pending() == before + if keep then kept + [v] else kept
    {
      ok := true;
      if keep {
        AppendAssoc(before, kept, [v]);
        ok := Write(v);
      }
    }

    /** write_coverage_signal, first half: the signals that are not duplicates, counted. */
    method WriteSignal(sigs: seq<U32>, keep: seq<bool>) returns (ok: bool, n: nat)
      requires Valid() && |keep| == |sigs|
      modifies this`pos, this`history, data
      ensures Valid() && SameView() && old(pos) <= pos
      ensures ok ==> Pending() == old(Pending()) + Kept(sigs, keep) && n == |Kept(sigs, keep)| <= |sigs|
    {
      var i := 0;
      ghost var kept: seq<U32> := [];
      ok, n := true, 0;
      while i < |sigs|
        invariant 0 <= i <= |sigs| && Valid() && SameView() && old(pos) <= pos
        invariant kept == Kept(sigs[..i], keep[..i]) && |kept| <= i
        invariant ok && n == |kept| && Pending() == old(Pending()) + kept
      {
        KeptNext(sigs, keep, i);
        ghost var h := history;
        ok := WriteIf(keep[i], sigs[i], old(Pending()), kept);
        HistoryGrows(old(history), h, history);
        if !ok { return; }
        if keep[i] {
          kept := kept + [sigs[i]];
          n := n + 1;
        }
        i := i + 1;
      }
      assert sigs[..i] == sigs && keep[..i] == keep;
    }

    /** The comparisons that are not ignored, counted. */
    method WriteComps(comps: seq<Comp>, keep: seq<bool>) returns (ok: bool, n: nat)
      requires Valid() && |keep| == |comps| && CompsOk(comps)
      modifies this`pos, this`history, data
      ensures Valid() && SameView() && old(pos) <= pos
      ensures ok ==> Pending() == old(Pending()) + EncComps(Kept(comps, keep))
      ensures ok ==> n == |Kept(comps, keep)| <= |comps| && CompsOk(Kept(comps, keep))
    {
      var i := 0;
      ghost var kept: seq<Comp> := [];
      ok, n := true, 0;
      while i < |comps|
        invariant 0 <= i <= |comps| && Valid() && SameView() && old(pos) <= pos
        invariant kept == Kept(comps[..i], keep[..i])
        invariant ok && n == |kept| && Pending() == old(Pending()) + EncComps(kept)
      {
        KeptNext(comps, keep, i);
        if keep[i] {
          ghost var h := history;
          ok := WriteComp(comps[i], old(Pending()), kept);
          HistoryGrows(old(history), h, history);
          if !ok { return; }
          kept := kept + [comps[i]];
          n := n + 1;
        }
        i := i + 1;
      }
      assert comps[..i] == comps && keep[..i] == keep;
      KeptComps(comps, keep);
    }

    /** kcov_comparison_t::write, after the comparisons `kept`. */
    method WriteComp(c: Comp, ghost start: seq<U32>, ghost kept: seq<Comp>) returns (ok: bool)
      requires Valid() && CompOk(c) && Pending() == start + EncComps(kept)
      modifies this`pos, this`history, data
      ensures Valid() && SameView() && old(pos) <= pos
      ensures ok ==> Pending() == start + EncComps(kept + [c])
    {
      ok := WriteSeq([c.typ] + c.operands);
      EncCompsSnoc(kept, c);
      AppendAssoc(start, EncComps(kept), [c.typ] + c.operands);
    }

    /** completed++ and write_completed: the record in front of `pos` becomes visible. */
    method Publish(ghost r: Record)
      requires Valid() && RecordOk(r) && completed + 1 < 0x1_0000_0000
      requires Pending() == EncRecord(r)
      modifies this`completed, this`published, this`visible, this`history, data
      ensures Valid() && published == old(published) + [r] && visible == pos
      ensures |history| == |old(history)| + 1 && history[..|old(history)|] == old(history)
      ensures Saw(|old(history)|, |history|, published, visible == data.Length)
    {
      ghost var words := data[..];
      StoreCount(words, visible, published, pos, r);
      completed := completed + 1;
      published := published + [r];
      visible := pos;
      data[0] := completed;
      assert data[..] == words[0 := data[0]];
      Stored();
    }

    /** The record `r` appears as a whole: the reader got the records without it after every store
        but the last, and those with it after the last. */
    twostate predicate Appeared(r: Record)
      reads this, data
    {
      && published == old(published) + [r] && visible == pos
      && |old(history)| < |history| && history[..|old(history)|] == old(history)
      && Saw(|old(history)|, |history| - 1, old(published), old(visible) == data.Length)
      && Reads(history[|history| - 1], published, visible == data.Length)
    }

    /** A record of comparisons, in front of `pos` and not visible yet. */
    method WriteCompsPart(callIndex: U32, callNum: U32, errno: U32, flags: U32, keep: seq<bool>, comps: seq<Comp>)
      returns (ok: bool)
      requires Valid() && visible == pos && CompsOk(comps) && |keep| == |comps| < 0x1_0000_0000
      modifies this`pos, this`history, data
      ensures Valid() && SameView()
      ensures ok ==> |Kept(comps, keep)| <= |comps| && CompsOk(Kept(comps, keep))
      ensures ok ==>
        Pending() == [callIndex, callNum, errno, flags, 0, 0, |Kept(comps, keep)|] + EncComps(Kept(comps, keep))
    {
      var base := pos;
      ok := WriteSeq([callIndex, callNum, errno, flags, 0, 0, 0]);
      if !ok { return; }
      var n;
      ok, n := WriteComps(comps, keep);
      if !ok { return; }
      Patch(base + 6, n);
      SetHead(callIndex, callNum, errno, flags, 6, n, 0, EncComps(Kept(comps, keep)));
    }

    /** The body of write_call_output that records comparisons. */
    method WriteCompsOutput(callIndex: U32, callNum: U32, errno: U32, flags: U32, keep: seq<bool>, comps: seq<Comp>)
      returns (ok: bool)
      requires Valid() && visible == pos && completed + 1 < 0x1_0000_0000 && CompsOk(comps)
      requires |keep| == |comps| < 0x1_0000_0000
      modifies this, data
      ensures Valid()
      ensures !ok ==> SameView()
      ensures ok ==> Appeared(Record(callIndex, callNum, errno, flags, [], [], Kept(comps, keep)))
    {
      ok := WriteCompsPart(callIndex, callNum, errno, flags, keep, comps);
      ghost var written := history;
      if ok {
        EncComparisons(Record(callIndex, callNum, errno, flags, [], [], Kept(comps, keep)));
        Publish(Record(callIndex, callNum, errno, flags, [], [], Kept(comps, keep)));
        HistoryGrows(old(history), written, history);
      }
    }

    /** The header and the signal, with the number of signals patched in. */
    method WriteSignalPart(callIndex: U32, callNum: U32, errno: U32, flags: U32, sigs: seq<U32>, keep: seq<bool>)
      returns (ok: bool)
      requires Valid() && visible == pos && |keep| == |sigs| < 0x1_0000_0000
      modifies this`pos, this`history, data
      ensures Valid() && SameView() && old(pos) <= pos
      ensures ok ==> |Kept(sigs, keep)| < 0x1_0000_0000
      ensures ok ==>
        Pending() == [callIndex, callNum, errno, flags, |Kept(sigs, keep)|, 0, 0] + Kept(sigs, keep)
    {
      var base := pos;
      ok := WriteSeq([callIndex, callNum, errno, flags, 0, 0, 0]);
      if !ok { return; }
      var n;
      ok, n := WriteSignal(sigs, keep);
      if !ok { return; }
      Patch(base + 4, n);
      SetHead(callIndex, callNum, errno, flags, 4, n, 0, Kept(sigs, keep));
    }

    /** A record of signal and coverage, in front of `pos` and not visible yet. */
    method WriteCoverPart(callIndex: U32, callNum: U32, errno: U32, flags: U32, sigs: seq<U32>, keep: seq<bool>,
        cover: seq<U32>)
      returns (ok: bool)
      requires Valid() && visible == pos && |keep| == |sigs| < 0x1_0000_0000 && |cover| < 0x1_0000_0000
      modifies this`pos, this`history, data
      ensures Valid() && SameView()
      ensures ok ==> |Kept(sigs, keep)| < 0x1_0000_0000
      ensures ok ==> Pending() == EncRecord(Record(callIndex, callNum, errno, flags, Kept(sigs, keep), cover, []))
    {
      var base := pos;
      ghost var sig := Kept(sigs, keep);
      ok := WriteSignalPart(callIndex, callNum, errno, flags, sigs, keep);
      if !ok { return; }
      ok := WriteSeq(cover);
      if !ok { return; }
      assert Pending() == [callIndex, callNum, errno, flags, |sig|, 0, 0] + (sig + cover);
      Patch(base + 5, |cover|);
      SetHead(callIndex, callNum, errno, flags, 5, |sig|, |cover|, sig + cover);
      EncCover(Record(callIndex, callNum, errno, flags, sig, cover, []));
    }

    /** The body of write_call_output that records signal and coverage. */
    method WriteCoverOutput(callIndex: U32, callNum: U32, errno: U32, flags: U32, sigs: seq<U32>, keep: seq<bool>,
        cover: seq<U32>)
      returns (ok: bool)
      requires Valid() && visible == pos && completed + 1 < 0x1_0000_0000
      requires |keep| == |sigs| < 0x1_0000_0000 && |cover| < 0x1_0000_0000
      modifies this, data
      ensures Valid()
      ensures !ok ==> SameView()
      ensures ok ==> Appeared(Record(callIndex, callNum, errno, flags, Kept(sigs, keep), cover, []))
    {
      ok := WriteCoverPart(callIndex, callNum, errno, flags, sigs, keep, cover);
      ghost var written := history;
      if ok {
        Publish(Record(callIndex, callNum, errno, flags, Kept(sigs, keep), cover, []));
        HistoryGrows(old(history), written, history);
      }
    }

    /** write_call_output with coverage, or with comparisons when `comparisons` is set. */
    method WriteCallOutput(callIndex: U32, callNum: U32, errno: U32, flags: U32, comparisons: bool,
                           sigs: seq<U32>, keep: seq<bool>, cover: seq<U32>, comps: seq<Comp>)
      returns (ok: bool)
      requires Valid() && visible == pos && completed + 1 < 0x1_0000_0000 && CompsOk(comps)
      requires |keep| == if comparisons then |comps| else |sigs|
      requires |sigs| < 0x1_0000_0000 && |cover| < 0x1_0000_0000 && |comps| < 0x1_0000_0000
      modifies this, data
      ensures Valid()
      ensures !ok ==> SameView()
      ensures ok ==> Appeared(if comparisons then Record(callIndex, callNum, errno, flags, [], [], Kept(comps, keep))
                              else Record(callIndex, callNum, errno, flags, Kept(sigs, keep), cover, []))
    {
      if comparisons {
        ok := WriteCompsOutput(callIndex, callNum, errno, flags, keep, comps);
      } else {
        ok := WriteCoverOutput(callIndex, callNum, errno, flags, sigs, keep, cover);
      }
    }

    /** write_extra_output: with extra coverage on, and some collected, a record of no call. */
    method WriteExtraOutput(coverage: bool, extra: bool, comparisons: bool, size: nat, sigs: seq<U32>, keep: seq<bool>,
        cover: seq<U32>)
      returns (ok: bool)
      requires Valid() && visible == pos && completed + 1 < 0x1_0000_0000
      requires |keep| == |sigs| < 0x1_0000_0000 && |cover| < 0x1_0000_0000
      modifies this, data
      ensures Valid()
      ensures var active := coverage && extra && !comparisons && size != 0;
        && (!active ==> ok && history == old(history) && data[..] == old(data[..]))
        && (!ok || !active ==> SameView())
        && (ok && active ==> Appeared(Record(EXTRA, EXTRA, 999, 0, Kept(sigs, keep), cover, [])))
    {
      if !coverage || !extra || comparisons || size == 0 {
        return true;
      }
      ok := WriteCoverOutput(EXTRA, EXTRA, 999, 0, sigs, keep, cover);
    }
  }
}
