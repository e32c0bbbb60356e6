/** Properties of the record decoder: how the interleaved child loops
    relate to a scan of the child headers, which DDIF sets the target of a
    container, why the order of DCBM and CMAS children does not matter,
    how binding tables combine, how the guarded settings reads behave, and
    what every decoded row looks like.
 */
module ParserProofs {
  import opened Wrappers
  import opened ByteIO
  import opened Frames
  import opened Enums
  import opened Models
  import opened Parser

  // ---------------------------------------------------------------------------
  // Child scans

  /** The headers tile `[pos, end)`: each header sits where the previous
      payload ends, every payload lies inside the region and the last one
      ends exactly at `end`. */
  predicate Tiles(cs: seq<FrameHeader>, pos: nat, end: nat)
    decreases |cs|
  {
    if cs == [] then pos >= end
    else pos < end && cs[0].payloadStart == pos + 8 && cs[0].payloadStart <= cs[0].payloadEnd <= end
         && Tiles(cs[1..], cs[0].payloadEnd, end)
  }

  lemma {:induction false} ChildHeadersTile(data: seq<byte>, pos: nat, end: nat)
    ensures ChildHeaders(data, pos, end).Ok? ==> Tiles(ChildHeaders(data, pos, end).value, pos, end)
    decreases end - pos
  {
    if pos < end {
      var p := ReadFrameHeader(Reader(data, pos, end));
      if p.Ok? {
        ChildHeadersTile(data, p.value.0.payloadEnd, end);
      }
    }
  }

  /** A header that reads inside a region reads the same inside any larger
      region: the header only looks at the buffer. */
  lemma HeaderInLargerRegion(data: seq<byte>, pos: nat, end: nat, end2: nat)
    requires end <= end2
    requires ReadFrameHeader(Reader(data, pos, end)).Ok?
    ensures ReadFrameHeader(Reader(data, pos, end2)).Ok?
    ensures ReadFrameHeader(Reader(data, pos, end2)).value.0 == ReadFrameHeader(Reader(data, pos, end)).value.0
  {
  }

  /** Frames that end 1 to 7 bytes short of the region end make the scan
      fail: the leftover bytes are read as a header that does not fit. */
  lemma {:induction false} TrailingBytesAbort(data: seq<byte>, pos: nat, q: nat, end: nat)
    requires pos <= q < end < q + 8
    requires ChildHeaders(data, pos, q).Ok?
    ensures ChildHeaders(data, pos, end).Err?
    decreases q - pos
  {
    if pos < q {
      var h := ReadFrameHeader(Reader(data, pos, q)).value.0;
      HeaderInLargerRegion(data, pos, q, end);
      TrailingBytesAbort(data, h.payloadEnd, q, end);
    }
  }

  // ---------------------------------------------------------------------------
  // Device data: the target in force

  /** The target after one child: a readable DDIF replaces it. */
  function NextTarget(data: seq<byte>, c: FrameHeader, t: nat): nat {
    if c.tag == "DDIF" && c.payloadStart + 4 <= |data| then U32At(data, c.payloadStart) else t
  }

  /** What one child of a DDAT contributes under target `t`. */
  function ChildStep(data: seq<byte>, c: FrameHeader, name: string, t: nat): Outcome<seq<Row>> {
    if c.tag == "DDIF" then
      (if c.payloadStart + 4 <= |data| then Ok([]) else Err(ShortRead(c.payloadStart)))
    else if c.tag == "DDCB" then MappingsContainer(data, c.payloadStart, c.payloadEnd, name, t)
    else Ok([])
  }

  /** The DDAT loop over already scanned children, front to back. */
  function DeviceDataOver(data: seq<byte>, cs: seq<FrameHeader>, name: string, t: nat): Outcome<seq<Row>>
    decreases |cs|
  {
    if cs == [] then Ok([])
    else
      var here :- ChildStep(data, cs[0], name, t);
      var rest :- DeviceDataOver(data, cs[1..], name, NextTarget(data, cs[0], t));
      Ok(here + rest)
  }

  /** The target in force after the children `pre`: the word of the last
      DDIF among them, or `t0` when there is none. */
  function TargetAfter(data: seq<byte>, pre: seq<FrameHeader>, t0: nat): nat
    decreases |pre|
  {
    if pre == [] then t0
    else NextTarget(data, pre[|pre| - 1], TargetAfter(data, pre[..|pre| - 1], t0))
  }

  /** The reference reading: each DDCB is decoded under the target of the
      latest DDIF before it. */
  function DeviceDataRef(data: seq<byte>, cs: seq<FrameHeader>, name: string, t0: nat): Outcome<seq<Row>>
    decreases |cs|
  {
    if cs == [] then Ok([])
    else
      var n := |cs| - 1;
      var front :- DeviceDataRef(data, cs[..n], name, t0);
      var more :- ChildStep(data, cs[n], name, TargetAfter(data, cs[..n], t0));
      Ok(front + more)
  }

  /** The interleaved DDAT loop is the loop over its scanned children; when
      the scan fails, so does the loop. */
  lemma {:induction false} DeviceDataScan(data: seq<byte>, pos: nat, end: nat, name: string, t: nat)
    ensures ChildHeaders(data, pos, end).Ok? ==>
              DeviceDataChildren(data, pos, end, name, t) == DeviceDataOver(data, ChildHeaders(data, pos, end).value, name, t)
    ensures ChildHeaders(data, pos, end).Err? ==> DeviceDataChildren(data, pos, end, name, t).Err?
    decreases end - pos
  {
    if pos < end {
      var p := ReadFrameHeader(Reader(data, pos, end));
      if p.Ok? {
        var h := p.value.0;
        var t' := NextTarget(data, h, t);
        DeviceDataScan(data, h.payloadEnd, end, name, t');
        DeviceDataScan(data, h.payloadEnd, end, name, t);
        if h.tag == "DDIF" && h.payloadStart + 4 <= |data| {
          var w := Reader(data, h.payloadStart, h.payloadEnd).U32();
          U32RoundTrip(data, h.payloadStart, w.value.0);
        }
        if ChildHeaders(data, pos, end).Ok? {
          var cs := ChildHeaders(data, pos, end).value;
          assert cs[0] == h && cs[1..] == ChildHeaders(data, h.payloadEnd, end).value;
          var rest := DeviceDataOver(data, cs[1..], name, t');
          if h.tag != "DDCB" && rest.Ok? {
            assert [] + rest.value == rest.value;
          }
        }
      }
    }
  }

  lemma {:induction false} TargetAfterCons(data: seq<byte>, c: FrameHeader, rest: seq<FrameHeader>, t: nat)
    ensures TargetAfter(data, [c] + rest, t) == TargetAfter(data, rest, NextTarget(data, c, t))
    decreases |rest|
  {
    if rest != [] {
      var n := |rest| - 1;
      assert ([c] + rest)[..|rest|] == [c] + rest[..n];
      TargetAfterCons(data, c, rest[..n], t);
    }
  }

  /** One more child at the back: the loop's result is the earlier result
      followed by that child's rows under the target then in force. */
  lemma {:induction false} DeviceDataSnoc(data: seq<byte>, cs: seq<FrameHeader>, c: FrameHeader, name: string, t: nat)
    ensures DeviceDataOver(data, cs + [c], name, t)
         == (var front :- DeviceDataOver(data, cs, name, t);
             var more :- ChildStep(data, c, name, TargetAfter(data, cs, t));
             Ok(front + more))
    decreases |cs|
  {
    if cs == [] {
      assert [] + [c] == [c];
      var s := ChildStep(data, c, name, t);
      if s.Ok? {
        assert s.value + [] == [] + s.value;
      }
    } else {
      var h, tl := cs[0], cs[1..];
      var t' := NextTarget(data, h, t);
      assert (cs + [c])[0] == h && (cs + [c])[1..] == tl + [c];
      DeviceDataSnoc(data, tl, c, name, t');
      assert cs == [h] + tl;
      TargetAfterCons(data, h, tl, t);
      var here := ChildStep(data, h, name, t);
      var front := DeviceDataOver(data, tl, name, t');
      var more := ChildStep(data, c, name, TargetAfter(data, cs, t));
      if here.Ok? && front.Ok? && more.Ok? {
        assert here.value + (front.value + more.value) == (here.value + front.value) + more.value;
      }
    }
  }

  lemma {:induction false} DeviceDataOverIsRef(data: seq<byte>, cs: seq<FrameHeader>, name: string, t0: nat)
    ensures DeviceDataOver(data, cs, name, t0) == DeviceDataRef(data, cs, name, t0)
    decreases |cs|
  {
    if cs != [] {
      var n := |cs| - 1;
      DeviceDataOverIsRef(data, cs[..n], name, t0);
      DeviceDataSnoc(data, cs[..n], cs[n], name, t0);
      assert cs[..n] + [cs[n]] == cs;
    }
  }

  /** `_parse_device_data` decodes each DDCB with the word of the latest DDIF
      before it, or 0 when there is none, whatever children come between. */
  lemma DeviceTargetIsLatestDdif(data: seq<byte>, start: nat, end: nat, name: string)
    requires ChildHeaders(data, start, end).Ok?
    ensures ParseDeviceData(data, start, end, name) == DeviceDataRef(data, ChildHeaders(data, start, end).value, name, 0)
  {
    DeviceDataScan(data, start, end, name, 0);
    DeviceDataOverIsRef(data, ChildHeaders(data, start, end).value, name, 0);
  }

  // ---------------------------------------------------------------------------
  // Containers: the order of DCBM and CMAS children

  /** The children with one tag, in order. */
  function OfTag(cs: seq<FrameHeader>, tag: string): (out: seq<FrameHeader>)
    ensures |out| <= |cs|
    ensures forall i :: 0 <= i < |out| ==> out[i].tag == tag
    decreases |cs|
  {
    if cs == [] then []
    else (if cs[0].tag == tag then [cs[0]] else []) + OfTag(cs[1..], tag)
  }

  /** Pass A only sees the DCBM children. */
  lemma {:induction false} BindingPassOnlyDcbm(data: seq<byte>, cs: seq<FrameHeader>, acc: Bindings)
    ensures BindingPass(data, cs, acc) == BindingPass(data, OfTag(cs, "DCBM"), acc)
    decreases |cs|
  {
    if cs != [] {
      var rest := OfTag(cs[1..], "DCBM");
      if cs[0].tag == "DCBM" {
        var f := [cs[0]] + rest;
        assert OfTag(cs, "DCBM") == f;
        assert f[0] == cs[0] && f[1..] == rest;
        var acc2 := BindingList(data, cs[0].payloadStart, cs[0].payloadEnd, acc);
        if acc2.Ok? {
          BindingPassOnlyDcbm(data, cs[1..], acc2.value);
        }
      } else {
        assert OfTag(cs, "DCBM") == rest;
        BindingPassOnlyDcbm(data, cs[1..], acc);
      }
    }
  }

  /** Pass B only sees the CMAS children. */
  lemma {:induction false} MappingPassOnlyCmas(data: seq<byte>, cs: seq<FrameHeader>, name: string, target: nat, b: Bindings)
    ensures MappingPass(data, cs, name, target, b) == MappingPass(data, OfTag(cs, "CMAS"), name, target, b)
    decreases |cs|
  {
    if cs != [] {
      var rest := OfTag(cs[1..], "CMAS");
      MappingPassOnlyCmas(data, cs[1..], name, target, b);
      if cs[0].tag == "CMAS" {
        var f := [cs[0]] + rest;
        assert OfTag(cs, "CMAS") == f;
        assert f[0] == cs[0] && f[1..] == rest;
      } else {
        assert OfTag(cs, "CMAS") == rest;
        var tail := MappingPass(data, cs[1..], name, target, b);
        assert MappingPass(data, cs, name, target, b) == (var r :- tail; Ok([] + r));
        if tail.Ok? {
          assert [] + tail.value == tail.value;
        }
      }
    }
  }

  /** A container's rows depend only on the order of its DCBM children among
      themselves and of its CMAS children among themselves: the binding table
      is finished before any mapping is read, so CMAS may come first. */
  lemma ContainerOrderIndependent(data: seq<byte>, cs1: seq<FrameHeader>, cs2: seq<FrameHeader>, name: string, target: nat)
    requires OfTag(cs1, "DCBM") == OfTag(cs2, "DCBM")
    requires OfTag(cs1, "CMAS") == OfTag(cs2, "CMAS")
    ensures ContainerOver(data, cs1, name, target) == ContainerOver(data, cs2, name, target)
  {
    BindingPassOnlyDcbm(data, cs1, map[]);
    BindingPassOnlyDcbm(data, cs2, map[]);
    var b := BindingPass(data, cs1, map[]);
    if b.Ok? {
      MappingPassOnlyCmas(data, cs1, name, target, b.value);
      MappingPassOnlyCmas(data, cs2, name, target, b.value);
    }
  }

  /** A CMAS list placed before its DCBM list decodes as if it came after. */
  lemma CmasBeforeDcbm(data: seq<byte>, cmas: FrameHeader, dcbm: FrameHeader, name: string, target: nat)
    requires cmas.tag == "CMAS" && dcbm.tag == "DCBM"
    ensures ContainerOver(data, [cmas, dcbm], name, target) == ContainerOver(data, [dcbm, cmas], name, target)
  {
    assert [cmas, dcbm][1..] == [dcbm] && [dcbm, cmas][1..] == [cmas];
    assert [dcbm][1..] == [] && [cmas][1..] == [];
    ContainerOrderIndependent(data, [cmas, dcbm], [dcbm, cmas], name, target);
  }

  // ---------------------------------------------------------------------------
  // Binding tables

  /** A table read into `acc`: the read entries override `acc`. */
  function Over(acc: Bindings, o: Outcome<Bindings>): Outcome<Bindings> {
    match o
    case Ok(m) => Ok(acc + m)
    case Err(e) => Err(e)
  }

  lemma MapUnionAssoc(a: Bindings, b: Bindings, c: Bindings)
    ensures a + (b + c) == (a + b) + c
  {
  }

  /** Adding one entry to `acc` and then a table is adding the entry to the
      empty table, then that table, to `acc`. */
  lemma OverStep(acc: Bindings, e: Option<(nat, string)>, tail: Outcome<Bindings>)
    ensures Over(Bind(acc, e), tail) == Over(acc, Over(Bind(map[], e), tail))
  {
    if tail.Ok? {
      if e.None? {
        assert map[] + tail.value == tail.value;
      } else {
        assert acc[e.value.0 := e.value.1] == acc + map[e.value.0 := e.value.1];
        assert map[][e.value.0 := e.value.1] == map[e.value.0 := e.value.1];
        MapUnionAssoc(acc, map[e.value.0 := e.value.1], tail.value);
      }
    }
  }

  lemma {:induction false} BindingEntriesOver(data: seq<byte>, pos: nat, end: nat, count: nat, acc: Bindings)
    ensures BindingEntries(data, pos, end, count, acc) == Over(acc, BindingEntries(data, pos, end, count, map[]))
    decreases count
  {
    if count == 0 {
      assert acc + map[] == acc;
    } else {
      var p := ReadFrameHeader(Reader(data, pos, end));
      if p.Ok? {
        var h := p.value.0;
        var e := EntryBinding(data, h);
        if e.Ok? {
          BindingEntriesOver(data, h.payloadEnd, end, count - 1, Bind(acc, e.value));
          BindingEntriesOver(data, h.payloadEnd, end, count - 1, Bind(map[], e.value));
          OverStep(acc, e.value, BindingEntries(data, h.payloadEnd, end, count - 1, map[]));
        }
      }
    }
  }

  /** The binding loop written inline in pass A is `_read_midi_bindings`
      followed by a union in which the list just read overrides the table
      built so far. */
  lemma BindingListIsReadMidiBindings(data: seq<byte>, start: nat, end: nat, acc: Bindings)
    ensures BindingList(data, start, end, acc) == Over(acc, ReadMidiBindings(data, start, end))
    ensures BindingList(data, start, end, map[]) == ReadMidiBindings(data, start, end)
  {
    var c := Reader(data, start, end).U32();
    if c.Ok? {
      BindingEntriesOver(data, start + 4, end, c.value.0, acc);
      BindingEntriesOver(data, start + 4, end, c.value.0, map[]);
      var m := BindingEntries(data, start + 4, end, c.value.0, map[]);
      if m.Ok? {
        assert map[] + m.value == m.value;
      }
    }
  }

  /** In the union, a later list wins for an id it contains, and ids it lacks
      keep their earlier names. */
  lemma OverPrefersLater(acc: Bindings, m: Bindings, id: nat)
    ensures Over(acc, Ok(m)).Ok?
    ensures id in m ==> id in Over(acc, Ok(m)).value && Over(acc, Ok(m)).value[id] == m[id]
    ensures id !in m ==> (id in Over(acc, Ok(m)).value <==> id in acc)
    ensures id !in m && id in acc ==> Over(acc, Ok(m)).value[id] == acc[id]
  {
  }

  // ---------------------------------------------------------------------------
  // Mapping lists

  /** The headers of exactly `count` entries, each after the previous one. */
  function EntryHeaders(data: seq<byte>, pos: nat, end: nat, count: nat): Outcome<seq<FrameHeader>>
    decreases count
  {
    if count == 0 then Ok([])
    else
      var p :- ReadFrameHeader(Reader(data, pos, end));
      var rest :- EntryHeaders(data, p.0.payloadEnd, end, count - 1);
      Ok([p.0] + rest)
  }

  /** The rows of already read entry headers: one per CMAI entry. */
  function MappingsOver(data: seq<byte>, hs: seq<FrameHeader>, name: string, target: nat, b: Bindings): Outcome<seq<Row>>
    decreases |hs|
  {
    if hs == [] then Ok([])
    else
      var here :- EntryRows(data, hs[0], name, target, b);
      var rest :- MappingsOver(data, hs[1..], name, target, b);
      Ok(here + rest)
  }

  /** The rows of one entry followed by those of the entries after it; the
      first failure wins. */
  function Join(here: Outcome<seq<Row>>, rest: Outcome<seq<Row>>): (res: Outcome<seq<Row>>)
    ensures res.Ok? <==> here.Ok? && rest.Ok?
    ensures res.Ok? ==> res.value == here.value + rest.value
  {
    var a :- here;
    var c :- rest;
    Ok(a + c)
  }

  /** The entries after the first one start at the end of its payload. */
  lemma MappingEntriesStep(data: seq<byte>, pos: nat, end: nat, count: nat, name: string, target: nat, b: Bindings, h: FrameHeader)
    requires count > 0
    requires ReadFrameHeader(Reader(data, pos, end)).Ok? && ReadFrameHeader(Reader(data, pos, end)).value.0 == h
    ensures MappingEntries(data, pos, end, count, name, target, b)
         == Join(EntryRows(data, h, name, target, b), MappingEntries(data, h.payloadEnd, end, count - 1, name, target, b))
  {
  }

  /** The rows over one more header in front. */
  lemma MappingsOverCons(data: seq<byte>, h: FrameHeader, hs: seq<FrameHeader>, name: string, target: nat, b: Bindings)
    ensures MappingsOver(data, [h] + hs, name, target, b)
         == Join(EntryRows(data, h, name, target, b), MappingsOver(data, hs, name, target, b))
  {
    assert ([h] + hs)[0] == h && ([h] + hs)[1..] == hs;
  }

  /** `_read_mappings_list` reads exactly `count` entry headers. */
  lemma {:induction false} EntryHeadersCount(data: seq<byte>, pos: nat, end: nat, count: nat)
    ensures EntryHeaders(data, pos, end, count).Ok? ==> |EntryHeaders(data, pos, end, count).value| == count
    decreases count
  {
    if count > 0 {
      var p := ReadFrameHeader(Reader(data, pos, end));
      if p.Ok? {
        EntryHeadersCount(data, p.value.0.payloadEnd, end, count - 1);
      }
    }
  }

  /** The rows of `_read_mappings_list` are those of its entry headers, taken
      in order; when a header cannot be read, it fails. */
  lemma {:induction false} MappingEntriesAreHeaders(data: seq<byte>, pos: nat, end: nat, count: nat, name: string, target: nat, b: Bindings)
    ensures EntryHeaders(data, pos, end, count).Ok? ==>
              MappingEntries(data, pos, end, count, name, target, b)
              == MappingsOver(data, EntryHeaders(data, pos, end, count).value, name, target, b)
    ensures EntryHeaders(data, pos, end, count).Err? ==> MappingEntries(data, pos, end, count, name, target, b).Err?
    decreases count
  {
    if count > 0 {
      var p := ReadFrameHeader(Reader(data, pos, end));
      if p.Ok? {
        var h := p.value.0;
        var next: nat, c1: nat := h.payloadEnd, count - 1;
        var rest := EntryHeaders(data, next, end, c1);
        assert EntryHeaders(data, pos, end, count) == (if rest.Ok? then Ok([h] + rest.value) else Err(rest.error));
        MappingEntriesStep(data, pos, end, count, name, target, b, h);
        MappingEntriesAreHeaders(data, next, end, c1, name, target, b);
        if rest.Ok? {
          MappingsOverCons(data, h, rest.value, name, target, b);
        }
      }
    }
  }

  /** One row per CMAI entry, so never more rows than the count word says. */
  lemma {:induction false} MappingsOverCount(data: seq<byte>, hs: seq<FrameHeader>, name: string, target: nat, b: Bindings)
    ensures MappingsOver(data, hs, name, target, b).Ok? ==>
              |MappingsOver(data, hs, name, target, b).value| == |OfTag(hs, "CMAI")| <= |hs|
    decreases |hs|
  {
    if hs != [] {
      MappingsOverCount(data, hs[1..], name, target, b);
    }
  }

  /** Pass A over one more child: the table so far, then that child's list. */
  lemma {:induction false} BindingPassSnoc(data: seq<byte>, cs: seq<FrameHeader>, c: FrameHeader, acc: Bindings)
    ensures BindingPass(data, cs + [c], acc)
         == (var m :- BindingPass(data, cs, acc);
             if c.tag == "DCBM" then BindingList(data, c.payloadStart, c.payloadEnd, m) else Ok(m))
    decreases |cs|
  {
    if cs == [] {
      assert [c][1..] == [];
    } else {
      assert (cs + [c])[0] == cs[0] && (cs + [c])[1..] == cs[1..] + [c];
      var acc2 := if cs[0].tag == "DCBM" then BindingList(data, cs[0].payloadStart, cs[0].payloadEnd, acc) else Ok(acc);
      if acc2.Ok? {
        BindingPassSnoc(data, cs[1..], c, acc2.value);
      }
    }
  }

  /** The binding table as the source describes it: the lists of the DCBM
      children read one by one, each overriding the ids of those before it. */
  function TableOf(data: seq<byte>, cs: seq<FrameHeader>): Outcome<Bindings>
    decreases |cs|
  {
    if cs == [] then Ok(map[])
    else
      var n := |cs| - 1;
      var front :- TableOf(data, cs[..n]);
      if cs[n].tag == "DCBM" then Over(front, ReadMidiBindings(data, cs[n].payloadStart, cs[n].payloadEnd)) else Ok(front)
  }

  /** Pass A builds exactly that table. */
  lemma {:induction false} BindingPassIsTable(data: seq<byte>, cs: seq<FrameHeader>)
    ensures BindingPass(data, cs, map[]) == TableOf(data, cs)
    decreases |cs|
  {
    if cs != [] {
      var n := |cs| - 1;
      BindingPassIsTable(data, cs[..n]);
      BindingPassSnoc(data, cs[..n], cs[n], map[]);
      assert cs[..n] + [cs[n]] == cs;
      var front := BindingPass(data, cs[..n], map[]);
      if front.Ok? {
        BindingListIsReadMidiBindings(data, cs[n].payloadStart, cs[n].payloadEnd, front.value);
      }
    }
  }

  // ---------------------------------------------------------------------------
  // Guarded settings reads

  /** The result of `k` guarded reads from `r`: the first `m` words are
      present, read back to back from the cursor, and the rest are None; the
      cursor moved past the present words only, and stopped with fewer than
      4 bytes of the region left when a word is missing. */
  predicate GuardedShape(r: Reader, k: nat, ws: seq<Option<nat>>, r2: Reader, m: nat) {
    && m <= k && |ws| == k
    && r2 == r.Seek(r.off + 4 * m)
    && (m > 0 ==> r.off + 4 * m <= r.end)
    && (m < k ==> r2.off + 4 > r.end)
    && (forall i :: 0 <= i < k ==> (ws[i].Some? <==> i < m))
    && (forall i :: 0 <= i < m ==> r.off + 4 * i + 4 <= |r.data| && ws[i] == Some(U32At(r.data, r.off + 4 * i)))
  }

  /** A missing first word: nothing after it is read either. */
  lemma GuardedShapeNone(r: Reader, k: nat, ws: seq<Option<nat>>, r2: Reader, m: nat)
    requires k > 0 && r.off + 4 > r.end
    requires GuardedShape(r, k - 1, ws, r2, m)
    ensures m == 0
    ensures GuardedShape(r, k, [None] + ws, r2, 0)
  {
    assert r.Seek(r.off) == r;
  }

  /** A present first word: the rest is read from just after it. */
  lemma GuardedShapeSome(r: Reader, k: nat, ws: seq<Option<nat>>, r2: Reader, m: nat)
    requires k > 0 && r.off + 4 <= r.end && r.off + 4 <= |r.data|
    requires GuardedShape(r.Seek(r.off + 4), k - 1, ws, r2, m)
    ensures GuardedShape(r, k, [Some(U32At(r.data, r.off))] + ws, r2, m + 1)
  {
    var all := [Some(U32At(r.data, r.off))] + ws;
    var r1 := r.Seek(r.off + 4);
    assert 4 * (m + 1) == 4 * m + 4;
    assert r2 == r.Seek(r.off + 4 * (m + 1));
    assert r.off + 4 * (m + 1) <= r.end by {
      if m > 0 {
        assert r1.off + 4 * m <= r1.end;
      }
    }
    forall i | 0 <= i < k
      ensures all[i].Some? <==> i < m + 1
    {
      if i > 0 {
        assert all[i] == ws[i - 1];
      }
    }
    forall i | 0 <= i < m + 1
      ensures r.off + 4 * i + 4 <= |r.data| && all[i] == Some(U32At(r.data, r.off + 4 * i))
    {
      if i > 0 {
        assert all[i] == ws[i - 1];
        assert r1.off + 4 * (i - 1) == r.off + 4 * i;
      }
    }
  }

  lemma {:induction false} GuardedWordsFacts(r: Reader, k: nat) returns (m: nat)
    ensures GuardedWords(r, k).Ok? ==> GuardedShape(r, k, GuardedWords(r, k).value.0, GuardedWords(r, k).value.1, m)
    decreases k
  {
    m := 0;
    if k == 0 {
      assert r.Seek(r.off) == r;
    } else {
      var w := GuardedWord(r);
      if w.Ok? {
        var r1 := w.value.1;
        var m1 := GuardedWordsFacts(r1, k - 1);
        var rest := GuardedWords(r1, k - 1);
        if rest.Ok? {
          assert GuardedWords(r, k).value == ([w.value.0] + rest.value.0, rest.value.1);
          if r.off + 4 > r.end {
            GuardedShapeNone(r, k, rest.value.0, rest.value.1, m1);
          } else {
            GuardedShapeSome(r, k, rest.value.0, rest.value.1, m1);
            m := m1 + 1;
          }
        }
      }
    }
  }

  /** Guarded reads never fail when the region lies inside the buffer, nor
      when fewer than 4 bytes of the region are left. */
  lemma {:induction false} GuardedWordsOk(r: Reader, k: nat)
    requires r.end <= |r.data| || r.off + 4 > r.end
    ensures GuardedWords(r, k).Ok?
    decreases k
  {
    if k > 0 {
      GuardedWordsOk(GuardedWord(r).value.1, k - 1);
    }
  }

  /** `_wstr() or None`: the comment is present exactly when the prefixed
      string reads and is not empty, and it is that string. */
  lemma GuardedCommentText(r: Reader)
    ensures GuardedComment(r).0.Some? <==> r.WStrPrefixed().Ok? && r.WStrPrefixed().value.0 != []
    ensures GuardedComment(r).0.Some? ==> GuardedComment(r).0.value == r.WStrPrefixed().value.0
  {
  }

  /** Once a word is absent every later one is: missing words only occur at
      the end of the sequence. */
  predicate AbsenceMonotone(ws: seq<Option<nat>>) {
    forall i, j :: 0 <= i < j < |ws| && ws[i].None? ==> ws[j].None?
  }

  /** Two runs of guarded reads, the second one empty when the first one
      stopped early: absence is monotone across both. */
  lemma AbsenceAcross(head: seq<Option<nat>>, tail: seq<Option<nat>>, m1: nat, m2: nat)
    requires forall i :: 0 <= i < |head| ==> (head[i].Some? <==> i < m1)
    requires forall j :: 0 <= j < |tail| ==> (tail[j].Some? <==> j < m2)
    requires m1 < |head| ==> m2 == 0
    ensures AbsenceMonotone(head + tail)
  {
    var w := head + tail;
    forall i, j | 0 <= i < j < |w| && w[i].None?
      ensures w[j].None?
    {
      if i >= |head| {
        assert w[i] == tail[i - |head|] && w[j] == tail[j - |head|];
      } else if j >= |head| {
        assert w[j] == tail[j - |head|];
      }
    }
  }

  /** The two runs of guarded reads inside a decoded settings record: the
      head run has the guarded shape from the region start, and the tail run
      reads nothing when the head run stopped early. */
  lemma SettingsRuns(data: seq<byte>, start: nat, end: nat) returns (m1: nat, m2: nat, r2: Reader)
    requires DecodeSettings(data, start, end).Ok?
    ensures GuardedShape(Reader(data, start, end), HEAD_WORDS, DecodeSettings(data, start, end).value.head, r2, m1)
    ensures |DecodeSettings(data, start, end).value.tail| == TAIL_WORDS
    ensures forall j :: 0 <= j < TAIL_WORDS ==> (DecodeSettings(data, start, end).value.tail[j].Some? <==> j < m2)
    ensures m1 < HEAD_WORDS ==> m2 == 0
  {
    var r := Reader(data, start, end);
    m1 := GuardedWordsFacts(r, HEAD_WORDS);
    var h := GuardedWords(r, HEAD_WORDS).value;
    r2 := h.1;
    var c := GuardedComment(h.1);
    m2 := GuardedWordsFacts(c.1, TAIL_WORDS);
    var t := GuardedWords(c.1, TAIL_WORDS).value;
    assert DecodeSettings(data, start, end).value == Settings(h.0, c.0, t.0);
    if m1 < HEAD_WORDS {
      assert c.1.off >= h.1.off && c.1.end == end;
    }
  }

  /** Where the tail run starts once all twelve head words were read: just
      past the prefixed comment when its count word is in the buffer, else
      where the comment read left the cursor, at the end of the head run. */
  function TailStart(data: seq<byte>, start: nat): nat {
    if start + 4 * HEAD_WORDS + 4 <= |data| then start + 4 * HEAD_WORDS + 4 + 2 * U32At(data, start + 4 * HEAD_WORDS)
    else start + 4 * HEAD_WORDS
  }

  /** Every present word of `ws` is the u32 at its own slot of a run of
      words laid back to back from `off`, inside both the region and the
      buffer. */
  predicate WordsFrom(ws: seq<Option<nat>>, data: seq<byte>, off: nat, end: nat) {
    forall j :: 0 <= j < |ws| && ws[j].Some? ==>
      off + 4 * j + 4 <= end && off + 4 * j + 4 <= |data| && ws[j] == Some(U32At(data, off + 4 * j))
  }

  /** A run of guarded reads, stated word by word. */
  lemma GuardedWordsAt(r: Reader, k: nat)
    requires GuardedWords(r, k).Ok?
    ensures WordsFrom(GuardedWords(r, k).value.0, r.data, r.off, r.end)
  {
    var m := GuardedWordsFacts(r, k);
    var ws := GuardedWords(r, k).value.0;
    forall j | 0 <= j < |ws| && ws[j].Some?
      ensures r.off + 4 * j + 4 <= r.end
    {
      assert j < m;
      assert r.off + 4 * j + 4 <= r.off + 4 * m;
    }
  }

  /** A complete head run ends 48 bytes after the region start. */
  lemma HeadRunEnds(data: seq<byte>, start: nat, end: nat)
    requires GuardedWords(Reader(data, start, end), HEAD_WORDS).Ok?
    requires Word(GuardedWords(Reader(data, start, end), HEAD_WORDS).value.0, HEAD_WORDS - 1).Some?
    ensures GuardedWords(Reader(data, start, end), HEAD_WORDS).value.1 == Reader(data, start + 4 * HEAD_WORDS, end)
  {
    var r := Reader(data, start, end);
    var m := GuardedWordsFacts(r, HEAD_WORDS);
    assert GuardedWords(r, HEAD_WORDS).value.0[HEAD_WORDS - 1].Some?;
  }

  /** The comment read moves past the prefixed string when its count word
      is in the buffer, and leaves the cursor alone otherwise. */
  lemma CommentEnds(data: seq<byte>, p: nat, end: nat)
    ensures GuardedComment(Reader(data, p, end)).1
         == Reader(data, if p + 4 <= |data| then p + 4 + 2 * U32At(data, p) else p, end)
  {
  }

  /** The tail words of decoded settings are the run read after the comment. */
  lemma SettingsTailRun(data: seq<byte>, start: nat, end: nat)
    requires DecodeSettings(data, start, end).Ok?
    ensures GuardedWords(Reader(data, start, end), HEAD_WORDS).Ok?
    ensures DecodeSettings(data, start, end).value.head == GuardedWords(Reader(data, start, end), HEAD_WORDS).value.0
    ensures GuardedWords(GuardedComment(GuardedWords(Reader(data, start, end), HEAD_WORDS).value.1).1, TAIL_WORDS).Ok?
    ensures DecodeSettings(data, start, end).value.tail
         == GuardedWords(GuardedComment(GuardedWords(Reader(data, start, end), HEAD_WORDS).value.1).1, TAIL_WORDS).value.0
  {
  }

  /** With the head run complete, the seventeen tail words sit back to back
      from the end of the comment. */
  lemma SettingsTail(data: seq<byte>, start: nat, end: nat)
    requires DecodeSettings(data, start, end).Ok?
    requires Word(DecodeSettings(data, start, end).value.head, HEAD_WORDS - 1).Some?
    ensures WordsFrom(DecodeSettings(data, start, end).value.tail, data, TailStart(data, start), end)
  {
    SettingsTailRun(data, start, end);
    var h := GuardedWords(Reader(data, start, end), HEAD_WORDS).value;
    HeadRunEnds(data, start, end);
    var p := start + 4 * HEAD_WORDS;
    assert h.1 == Reader(data, p, end);
    CommentEnds(data, p, end);
    var rt := Reader(data, TailStart(data, start), end);
    assert GuardedComment(h.1).1 == rt;
    GuardedWordsAt(rt, TAIL_WORDS);
  }

  /** The settings layout: the twelve head words sit back to back from the
      region start and, when all twelve are there, the seventeen tail words
      back to back from the end of the comment; once a numeric field is
      absent, every later one is, across the comment too, since the comment
      read never moves the cursor back. */
  lemma SettingsLayout(data: seq<byte>, start: nat, end: nat)
    requires DecodeSettings(data, start, end).Ok?
    ensures |DecodeSettings(data, start, end).value.head| == HEAD_WORDS
    ensures |DecodeSettings(data, start, end).value.tail| == TAIL_WORDS
    ensures WordsFrom(DecodeSettings(data, start, end).value.head, data, start, end)
    ensures Word(DecodeSettings(data, start, end).value.head, HEAD_WORDS - 1).Some? ==>
              WordsFrom(DecodeSettings(data, start, end).value.tail, data, TailStart(data, start), end)
    ensures AbsenceMonotone(DecodeSettings(data, start, end).value.head + DecodeSettings(data, start, end).value.tail)
  {
    var s := DecodeSettings(data, start, end).value;
    SettingsTailRun(data, start, end);
    GuardedWordsAt(Reader(data, start, end), HEAD_WORDS);
    if Word(s.head, HEAD_WORDS - 1).Some? {
      SettingsTail(data, start, end);
    }
    var m1, m2, r2 := SettingsRuns(data, start, end);
    AbsenceAcross(s.head, s.tail, m1, m2);
  }

  /** A settings region inside the buffer always decodes. */
  lemma SettingsInBuffer(data: seq<byte>, start: nat, end: nat)
    requires end <= |data|
    ensures DecodeSettings(data, start, end).Ok?
  {
    var r := Reader(data, start, end);
    GuardedWordsOk(r, HEAD_WORDS);
    var m1 := GuardedWordsFacts(r, HEAD_WORDS);
    var h := GuardedWords(r, HEAD_WORDS).value;
    var c := GuardedComment(h.1);
    assert c.1.end == end && c.1.data == data;
    GuardedWordsOk(c.1, TAIL_WORDS);
  }

  /** A settings region shorter than one word yields no numeric field at
      all; only the comment, read past the region, can be present. */
  lemma SettingsTooShort(data: seq<byte>, start: nat, end: nat)
    requires end < start + 4
    ensures DecodeSettings(data, start, end).Ok?
    ensures forall i :: 0 <= i < |DecodeSettings(data, start, end).value.head| ==> DecodeSettings(data, start, end).value.head[i].None?
    ensures forall i :: 0 <= i < |DecodeSettings(data, start, end).value.tail| ==> DecodeSettings(data, start, end).value.tail[i].None?
  {
    var r := Reader(data, start, end);
    GuardedWordsOk(r, HEAD_WORDS);
    var m1 := GuardedWordsFacts(r, HEAD_WORDS);
    var h := GuardedWords(r, HEAD_WORDS).value;
    var c := GuardedComment(h.1);
    assert c.1.end == end && c.1.off >= start;
    GuardedWordsOk(c.1, TAIL_WORDS);
    var m2 := GuardedWordsFacts(c.1, TAIL_WORDS);
  }

  // ---------------------------------------------------------------------------
  // Mapping records

  /** The fixed part of a mapping record: three words at the record start,
      then a settings frame header whose tag is never looked at. */
  lemma ReadMappingHeadLayout(data: seq<byte>, start: nat, end: nat)
    ensures ReadMappingHead(data, start, end).Ok?
        <==> start + 20 <= |data| && start + 20 + U32At(data, start + 16) <= end
    ensures ReadMappingHead(data, start, end).Ok? ==>
              && ReadMappingHead(data, start, end).value.bindingId == U32At(data, start)
              && ReadMappingHead(data, start, end).value.mappingType == U32At(data, start + 4)
              && ReadMappingHead(data, start, end).value.controlId == U32At(data, start + 8)
              && ReadMappingHead(data, start, end).value.settings.payloadStart == start + 20
              && ReadMappingHead(data, start, end).value.settings.payloadEnd == start + 20 + U32At(data, start + 16)
  {
    var id := Reader(data, start, end).U32();
    if id.Ok? {
      U32RoundTrip(data, start, id.value.0);
      var mt := id.value.1.U32();
      if mt.Ok? {
        U32RoundTrip(data, start + 4, mt.value.0);
        var ctl := mt.value.1.U32();
        if ctl.Ok? {
          U32RoundTrip(data, start + 8, ctl.value.0);
        }
      }
    }
  }

  /** `_read_mapping` after its fixed part: the settings are the payload of
      the frame read there, and the row is built from the fixed words and
      the settings. */
  lemma ReadMappingOfHead(data: seq<byte>, start: nat, end: nat, name: string, target: nat, b: Bindings, h: MappingHead)
    requires ReadMappingHead(data, start, end) == Ok(h)
    ensures ReadMapping(data, start, end, name, target, b).Ok? <==> DecodeSettings(data, h.settings.payloadStart, h.settings.payloadEnd).Ok?
    ensures ReadMapping(data, start, end, name, target, b).Ok? ==>
              ReadMapping(data, start, end, name, target, b).value
              == BuildRow(name, target, h.bindingId, h.mappingType, h.controlId, b,
                          DecodeSettings(data, h.settings.payloadStart, h.settings.payloadEnd).value)
  {
  }

  /** What every decoded row holds: nothing the decoder does not assign, a
      mapping type, and never the device's own deck as its deck scope. */
  predicate Decoded(r: Row) {
    UnsetByDecoder(r) && r.mappingType.Some? && r.deckScope != Some(Variant(DeviceTargetDeck))
  }

  /** The record built from the decoded words: the required fields, the
      binding name looked up by id, and every cast field reading back as
      the word it was cast from. */
  lemma BuildRowFacts(row: Row, name: string, target: nat, id: nat, mt: nat, ctl: nat, b: Bindings, s: Settings)
    requires row == BuildRow(name, target, id, mt, ctl, b, s)
    ensures Decoded(row)
    ensures row.deviceName == name && row.deviceTarget == target
    ensures row.midiBindingId == id && row.traktorControlId == ctl
    ensures id in b ==> row.midiNote == Some(b[id])
    ensures id !in b ==> row.midiNote.None?
    ensures CastValue((m: MappingType) => m.Value(), row.mappingType.value) == mt
    ensures row.controllerType.Some? <==> Word(s.head, CONTROLLER_TYPE).Some?
    ensures row.controllerType.Some? ==> CastValue((c: ControllerType) => c.Value(), row.controllerType.value) == Word(s.head, CONTROLLER_TYPE).value
    ensures row.interactionMode.Some? <==> Word(s.head, INTERACTION_MODE).Some?
    ensures row.interactionMode.Some? ==> CastValue((m: InteractionMode) => m.Value(), row.interactionMode.value) == Word(s.head, INTERACTION_MODE).value
    ensures row.deckScope.Some? <==> Word(s.head, DECK_SCOPE).Some?
    ensures row.deckScope.Some? ==> CastValue((d: MappingTargetDeck) => d.Value(), row.deckScope.value) == Word(s.head, DECK_SCOPE).value
    ensures row.resolutionRaw.Some? <==> Word(s.tail, RESOLUTION).Some?
    ensures row.resolutionRaw.Some? ==> CastValue((m: MappingResolution) => m.Value(), row.resolutionRaw.value) == Word(s.tail, RESOLUTION).value
  {
    CastKeepsValue(MappingTypeLookup, (m: MappingType) => m.Value(), mt);
    var ct := Word(s.head, CONTROLLER_TYPE);
    if ct.Some? {
      CastKeepsValue(ControllerTypeLookup, (c: ControllerType) => c.Value(), ct.value);
    }
    var im := Word(s.head, INTERACTION_MODE);
    if im.Some? {
      CastKeepsValue(InteractionModeLookup, (m: InteractionMode) => m.Value(), im.value);
    }
    var d := Word(s.head, DECK_SCOPE);
    if d.Some? {
      DeckScopeFromWord(d.value);
      MappingTargetDeckLookupValue(d.value);
      CastKeepsValue(MappingTargetDeckLookup, (m: MappingTargetDeck) => m.Value(), d.value);
    }
    var res := Word(s.tail, RESOLUTION);
    if res.Some? {
      CastKeepsValue(MappingResolutionLookup, (m: MappingResolution) => m.Value(), res.value);
    }
  }

  /** The mapping type decides nothing else: the LED and resolution fields
      are read for OUT mappings as well as IN ones. */
  lemma MappingTypeChangesOnlyItself(name: string, target: nat, id: nat, mt1: nat, mt2: nat, ctl: nat, b: Bindings, s: Settings)
    ensures BuildRow(name, target, id, mt1, ctl, b, s).(mappingType := None)
         == BuildRow(name, target, id, mt2, ctl, b, s).(mappingType := None)
  {
  }

  /** The interaction mode decides nothing else: the set-to value is kept
      whatever the mode. */
  lemma InteractionModeChangesOnlyItself(name: string, target: nat, id: nat, mt: nat, ctl: nat, b: Bindings, s: Settings, w: Option<nat>)
    requires |s.head| == HEAD_WORDS
    ensures BuildRow(name, target, id, mt, ctl, b, s).(interactionMode := None)
         == BuildRow(name, target, id, mt, ctl, b, s.(head := s.head[INTERACTION_MODE := w])).(interactionMode := None)
  {
  }

  // ---------------------------------------------------------------------------
  // Every decoded row

  /** Rows decoded for one device and target. */
  predicate RowsFrom(rows: seq<Row>, name: string, target: nat) {
    forall i :: 0 <= i < |rows| ==> Decoded(rows[i]) && rows[i].deviceName == name && rows[i].deviceTarget == target
  }

  /** Rows decoded for one device, under any targets. */
  predicate RowsNamed(rows: seq<Row>, name: string) {
    forall i :: 0 <= i < |rows| ==> Decoded(rows[i]) && rows[i].deviceName == name
  }

  lemma ReadMappingRow(data: seq<byte>, start: nat, end: nat, name: string, target: nat, b: Bindings)
    ensures ReadMapping(data, start, end, name, target, b).Ok? ==>
              RowsFrom([ReadMapping(data, start, end, name, target, b).value], name, target)
  {
    var r := ReadMapping(data, start, end, name, target, b);
    if r.Ok? {
      var hd := ReadMappingHead(data, start, end).value;
      var s := DecodeSettings(data, hd.settings.payloadStart, hd.settings.payloadEnd).value;
      BuildRowFacts(r.value, name, target, hd.bindingId, hd.mappingType, hd.controlId, b, s);
    }
  }

  lemma RowsFromAppend(a: seq<Row>, b: seq<Row>, name: string, target: nat)
    requires RowsFrom(a, name, target) && RowsFrom(b, name, target)
    ensures RowsFrom(a + b, name, target)
  {
    forall i | |a| <= i < |a + b|
      ensures (a + b)[i] == b[i - |a|]
    {
    }
  }

  lemma RowsNamedAppend(a: seq<Row>, b: seq<Row>, name: string)
    requires RowsNamed(a, name) && RowsNamed(b, name)
    ensures RowsNamed(a + b, name)
  {
    forall i | |a| <= i < |a + b|
      ensures (a + b)[i] == b[i - |a|]
    {
    }
  }

  lemma EntryRowsFrom(data: seq<byte>, h: FrameHeader, name: string, target: nat, b: Bindings)
    ensures EntryRows(data, h, name, target, b).Ok? ==> RowsFrom(EntryRows(data, h, name, target, b).value, name, target)
  {
    if h.tag == "CMAI" {
      var r := ReadMapping(data, h.payloadStart, h.payloadEnd, name, target, b);
      assert EntryRows(data, h, name, target, b) == (if r.Ok? then Ok([r.value]) else Err(r.error));
      ReadMappingRow(data, h.payloadStart, h.payloadEnd, name, target, b);
    } else {
      assert EntryRows(data, h, name, target, b) == Ok([]);
    }
  }

  lemma {:induction false} MappingsOverFrom(data: seq<byte>, hs: seq<FrameHeader>, name: string, target: nat, b: Bindings)
    ensures MappingsOver(data, hs, name, target, b).Ok? ==> RowsFrom(MappingsOver(data, hs, name, target, b).value, name, target)
    decreases |hs|
  {
    if hs != [] {
      var here := EntryRows(data, hs[0], name, target, b);
      var rest := MappingsOver(data, hs[1..], name, target, b);
      if here.Ok? && rest.Ok? {
        EntryRowsFrom(data, hs[0], name, target, b);
        MappingsOverFrom(data, hs[1..], name, target, b);
        RowsFromAppend(here.value, rest.value, name, target);
      }
    }
  }

  lemma MappingEntriesFrom(data: seq<byte>, pos: nat, end: nat, count: nat, name: string, target: nat, b: Bindings)
    ensures MappingEntries(data, pos, end, count, name, target, b).Ok? ==>
              RowsFrom(MappingEntries(data, pos, end, count, name, target, b).value, name, target)
  {
    MappingEntriesAreHeaders(data, pos, end, count, name, target, b);
    var hs := EntryHeaders(data, pos, end, count);
    if hs.Ok? {
      MappingsOverFrom(data, hs.value, name, target, b);
    }
  }

  lemma {:induction false} MappingPassFrom(data: seq<byte>, cs: seq<FrameHeader>, name: string, target: nat, b: Bindings)
    ensures MappingPass(data, cs, name, target, b).Ok? ==> RowsFrom(MappingPass(data, cs, name, target, b).value, name, target)
    decreases |cs|
  {
    if cs != [] {
      var c := Reader(data, cs[0].payloadStart, cs[0].payloadEnd).U32();
      if c.Ok? {
        MappingEntriesFrom(data, cs[0].payloadStart + 4, cs[0].payloadEnd, c.value.0, name, target, b);
      }
      MappingPassFrom(data, cs[1..], name, target, b);
    }
  }

  /** Every row of a DDCB container carries the device name and the target
      the container was decoded under. */
  lemma ContainerRows(data: seq<byte>, start: nat, end: nat, name: string, target: nat)
    ensures MappingsContainer(data, start, end, name, target).Ok? ==>
              RowsFrom(MappingsContainer(data, start, end, name, target).value, name, target)
  {
    var cs := ChildHeaders(data, start, end);
    if cs.Ok? {
      var b := BindingPass(data, cs.value, map[]);
      if b.Ok? {
        MappingPassFrom(data, cs.value, name, target, b.value);
      }
    }
  }

  lemma RowsFromAreNamed(rows: seq<Row>, name: string, target: nat)
    requires RowsFrom(rows, name, target)
    ensures RowsNamed(rows, name)
  {
  }

  lemma {:induction false} DeviceDataNamed(data: seq<byte>, pos: nat, end: nat, name: string, t: nat)
    ensures DeviceDataChildren(data, pos, end, name, t).Ok? ==> RowsNamed(DeviceDataChildren(data, pos, end, name, t).value, name)
    decreases end - pos
  {
    if pos < end {
      var p := ReadFrameHeader(Reader(data, pos, end));
      if p.Ok? {
        var h := p.value.0;
        if h.tag == "DDIF" {
          var w := Reader(data, h.payloadStart, h.payloadEnd).U32();
          if w.Ok? {
            assert DeviceDataChildren(data, pos, end, name, t) == DeviceDataChildren(data, h.payloadEnd, end, name, w.value.0);
            DeviceDataNamed(data, h.payloadEnd, end, name, w.value.0);
          }
        } else {
          var here := if h.tag == "DDCB" then MappingsContainer(data, h.payloadStart, h.payloadEnd, name, t) else Ok([]);
          var rest := DeviceDataChildren(data, h.payloadEnd, end, name, t);
          if here.Ok? && rest.Ok? {
            assert DeviceDataChildren(data, pos, end, name, t) == Ok(here.value + rest.value);
            if h.tag == "DDCB" {
              ContainerRows(data, h.payloadStart, h.payloadEnd, name, t);
              RowsFromAreNamed(here.value, name, t);
            }
            DeviceDataNamed(data, h.payloadEnd, end, name, t);
            RowsNamedAppend(here.value, rest.value, name);
          }
        }
      }
    }
  }

  lemma {:induction false} DeviceChildrenNamed(data: seq<byte>, pos: nat, end: nat, name: string)
    ensures DeviceChildren(data, pos, end, name).Ok? ==> RowsNamed(DeviceChildren(data, pos, end, name).value, name)
    decreases end - pos
  {
    if pos < end {
      var p := ReadFrameHeader(Reader(data, pos, end));
      if p.Ok? {
        var h := p.value.0;
        DeviceDataNamed(data, h.payloadStart, h.payloadEnd, name, 0);
        DeviceChildrenNamed(data, h.payloadEnd, end, name);
      }
    }
  }

  /** All rows of one device share its name. */
  lemma ParseDeviceRows(data: seq<byte>, start: nat, end: nat)
    ensures ParseDevice(data, start, end).Ok? ==>
              (forall i :: 0 <= i < |ParseDevice(data, start, end).value| ==> Decoded(ParseDevice(data, start, end).value[i]))
              && (forall i, j :: 0 <= i < j < |ParseDevice(data, start, end).value| ==>
                    ParseDevice(data, start, end).value[i].deviceName == ParseDevice(data, start, end).value[j].deviceName)
  {
    var n := Reader(data, start, end).U32();
    if n.Ok? {
      var text := n.value.1.Bytes(2 * n.value.0);
      DeviceChildrenNamed(data, text.1.off, end, Utf16BeDecode(text.0));
    }
  }

  // ---------------------------------------------------------------------------
  // The whole blob

  /** The walked nodes tagged DEVI, in walk order. */
  function DeviceNodes(nodes: seq<FrameNode>): (out: seq<FrameNode>)
    ensures |out| <= |nodes|
    decreases |nodes|
  {
    if nodes == [] then []
    else (if nodes[0].id4 == "DEVI" then [nodes[0]] else []) + DeviceNodes(nodes[1..])
  }

  /** `parse` decodes only DEVI nodes: the other nodes contribute nothing. */
  lemma {:induction false} DevicesInOnlyDevi(data: seq<byte>, nodes: seq<FrameNode>)
    ensures DevicesIn(data, nodes) == DevicesIn(data, DeviceNodes(nodes))
    decreases |nodes|
  {
    if nodes != [] {
      var rest := DeviceNodes(nodes[1..]);
      DevicesInOnlyDevi(data, nodes[1..]);
      if nodes[0].id4 == "DEVI" {
        var f := [nodes[0]] + rest;
        assert DeviceNodes(nodes) == f && f[0] == nodes[0] && f[1..] == rest;
      } else {
        assert DeviceNodes(nodes) == rest;
        var tail := DevicesIn(data, nodes[1..]);
        if tail.Ok? {
          assert [] + tail.value == tail.value;
        }
      }
    }
  }

  /** Decoding a list of nodes is decoding each part and concatenating. */
  lemma {:induction false} DevicesInAppend(data: seq<byte>, a: seq<FrameNode>, b: seq<FrameNode>)
    ensures DevicesIn(data, a + b)
         == (var x :- DevicesIn(data, a); var y :- DevicesIn(data, b); Ok(x + y))
    decreases |a|
  {
    if a == [] {
      assert [] + b == b;
      var y := DevicesIn(data, b);
      if y.Ok? {
        assert [] + y.value == y.value;
      }
    } else {
      assert (a + b)[0] == a[0] && (a + b)[1..] == a[1..] + b;
      DevicesInAppend(data, a[1..], b);
      var h := NodeRows(data, a[0]);
      var x := DevicesIn(data, a[1..]);
      var y := DevicesIn(data, b);
      if h.Ok? && x.Ok? && y.Ok? {
        assert h.value + (x.value + y.value) == (h.value + x.value) + y.value;
      }
    }
  }

  /** `parse` succeeds exactly when every DEVI node decodes: one faulty
      device aborts the whole parse. */
  lemma {:induction false} DevicesInOk(data: seq<byte>, nodes: seq<FrameNode>)
    ensures DevicesIn(data, nodes).Ok? <==> forall i :: 0 <= i < |nodes| ==> NodeRows(data, nodes[i]).Ok?
    decreases |nodes|
  {
    if nodes != [] {
      DevicesInOk(data, nodes[1..]);
      assert forall i :: 0 < i < |nodes| ==> nodes[1..][i - 1] == nodes[i];
    }
  }

  predicate AllDecoded(rows: seq<Row>) {
    forall i :: 0 <= i < |rows| ==> Decoded(rows[i])
  }

  lemma AllDecodedAppend(a: seq<Row>, b: seq<Row>)
    requires AllDecoded(a) && AllDecoded(b)
    ensures AllDecoded(a + b)
  {
    forall i | 0 <= i < |a + b|
      ensures Decoded((a + b)[i])
    {
      if i >= |a| {
        assert (a + b)[i] == b[i - |a|];
      }
    }
  }

  lemma NodeRowsDecoded(data: seq<byte>, n: FrameNode)
    ensures NodeRows(data, n).Ok? ==> AllDecoded(NodeRows(data, n).value)
  {
    if n.id4 == "DEVI" {
      assert NodeRows(data, n) == ParseDevice(data, n.start + 8, n.end);
      ParseDeviceRows(data, n.start + 8, n.end);
    } else {
      assert NodeRows(data, n) == Ok([]);
    }
  }

  lemma {:induction false} DevicesInDecoded(data: seq<byte>, nodes: seq<FrameNode>)
    ensures DevicesIn(data, nodes).Ok? ==> AllDecoded(DevicesIn(data, nodes).value)
    decreases |nodes|
  {
    if nodes != [] {
      var here := NodeRows(data, nodes[0]);
      var rest := DevicesIn(data, nodes[1..]);
      if here.Ok? && rest.Ok? {
        NodeRowsDecoded(data, nodes[0]);
        DevicesInDecoded(data, nodes[1..]);
        AllDecodedAppend(here.value, rest.value);
      }
    }
  }

  /** Every row `parse` returns leaves the raw-hex, binding-name, MIDI
      definition and raw fallback fields unset, has a mapping type, and
      never has the device's own deck as its deck scope. */
  lemma ParseRowsDecoded(blob: seq<byte>)
    ensures Parse(blob).Ok? ==> AllDecoded(Parse(blob).value)
  {
    DevicesInDecoded(blob, Walk(blob, 0, |blob|));
  }

  // ---------------------------------------------------------------------------
  // Faults abort

  /** The DEVI loop over already scanned children. */
  function DeviceOver(data: seq<byte>, cs: seq<FrameHeader>, name: string): Outcome<seq<Row>>
    decreases |cs|
  {
    if cs == [] then Ok([])
    else
      var here :- if cs[0].tag == "DDAT" then ParseDeviceData(data, cs[0].payloadStart, cs[0].payloadEnd, name) else Ok([]);
      var rest :- DeviceOver(data, cs[1..], name);
      Ok(here + rest)
  }

  /** The interleaved DEVI loop is the loop over its scanned children; when
      the scan fails, so does the loop. */
  lemma {:induction false} DeviceChildrenScan(data: seq<byte>, pos: nat, end: nat, name: string)
    ensures ChildHeaders(data, pos, end).Ok? ==>
              DeviceChildren(data, pos, end, name) == DeviceOver(data, ChildHeaders(data, pos, end).value, name)
    ensures ChildHeaders(data, pos, end).Err? ==> DeviceChildren(data, pos, end, name).Err?
    decreases end - pos
  {
    if pos < end {
      var p := ReadFrameHeader(Reader(data, pos, end));
      if p.Ok? {
        var h := p.value.0;
        DeviceChildrenScan(data, h.payloadEnd, end, name);
        if ChildHeaders(data, pos, end).Ok? {
          var cs := ChildHeaders(data, pos, end).value;
          assert cs[0] == h && cs[1..] == ChildHeaders(data, h.payloadEnd, end).value;
        }
      }
    }
  }

  /** Children ending 1 to 7 bytes before the end of a device, device-data or
      container payload make its decode fail, and with it the whole parse. */
  lemma TrailingBytesAbortDecoders(data: seq<byte>, pos: nat, q: nat, end: nat, name: string, target: nat)
    requires pos <= q < end < q + 8
    requires ChildHeaders(data, pos, q).Ok?
    ensures DeviceChildren(data, pos, end, name).Err?
    ensures DeviceDataChildren(data, pos, end, name, target).Err?
    ensures MappingsContainer(data, pos, end, name, target).Err?
  {
    TrailingBytesAbort(data, pos, q, end);
    DeviceChildrenScan(data, pos, end, name);
    DeviceDataScan(data, pos, end, name, target);
  }

  /** Trailing bytes after the last child of a device, past its name, fail
      the device decode. */
  lemma TrailingBytesAbortDevice(data: seq<byte>, start: nat, pos: nat, q: nat, end: nat)
    requires start + 4 <= |data| && pos == start + 4 + 2 * U32At(data, start)
    requires pos <= q < end < q + 8
    requires ChildHeaders(data, pos, q).Ok?
    ensures ParseDevice(data, start, end).Err?
  {
    var c := Reader(data, start, end).U32();
    U32RoundTrip(data, start, c.value.0);
    var text := c.value.1.Bytes(2 * c.value.0);
    var nm := Utf16BeDecode(text.0);
    assert ParseDevice(data, start, end) == DeviceChildren(data, pos, end, nm);
    TrailingBytesAbort(data, pos, q, end);
    DeviceChildrenScan(data, pos, end, nm);
  }

  /** The trailing bytes reach `parse` too: when they follow the last child
      of a DEVI node the walker finds, after the device name, the whole
      parse fails. */
  lemma TrailingBytesAbortParse(blob: seq<byte>, n: FrameNode, pos: nat, q: nat)
    requires n in Walk(blob, 0, |blob|) && n.id4 == "DEVI"
    requires n.start + 12 <= |blob| && pos == n.start + 12 + 2 * U32At(blob, n.start + 8)
    requires pos <= q < n.end < q + 8
    requires ChildHeaders(blob, pos, q).Ok?
    ensures Parse(blob).Err?
  {
    var nodes := Walk(blob, 0, |blob|);
    var i :| 0 <= i < |nodes| && nodes[i] == n;
    TrailingBytesAbortDevice(blob, n.start + 8, pos, q, n.end);
    assert NodeRows(blob, nodes[i]).Err?;
    DevicesInOk(blob, nodes);
  }

  /** An empty blob holds no device. */
  lemma ParseEmpty()
    ensures Parse([]) == Ok([])
  {
  }
}
