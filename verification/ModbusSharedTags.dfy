/** Registers that share a tag: exactly when what is written to a range of holding registers can be read back. */
module ModbusSharedTags {
  import opened Bytes
  import opened GoRuntime
  import opened RegisterWalk
  import opened ModbusRegister
  import opened MessageBus
  import opened ModbusTables
  import opened ModbusLaws

  /** Every frame written over a range, from any tags, reads back as it was written. */
  ghost predicate ReadsBack(p: Platform, table: Table, addr: int, stop: int)
    requires Walkable(table) && addr <= stop
  {
    forall frame: seq<byte>, tags: Tags :: |frame| == 5 + 2 * (stop - addr) ==>
      Returned(p, table, addr, stop, frame, tags)
  }

  ghost predicate Returned(p: Platform, table: Table, addr: int, stop: int, frame: seq<byte>, tags: Tags)
    requires Walkable(table) && addr <= stop && |frame| == 5 + 2 * (stop - addr)
  {
    var w := WriteWalk(p, table, frame, addr, stop, 5);
    Walk(View(p, table, Store(tags, w.points)), addr, stop) == Done(frame[5..], 2 * (stop - addr))
  }

  /** A write frame for a range that is zero but for a one in the last byte before an address. */
  function Lone(addr: int, stop: int, end: int): (frame: seq<byte>)
    requires addr < end <= stop
    ensures |frame| == 5 + 2 * (stop - addr)
  {
    seq(5 + 2 * (stop - addr), n => if n == 4 + 2 * (end - addr) then 1 else 0)
  }

  lemma {:induction false} VisitedTags(table: Table, addr: int, stop: int)
    requires Walkable(table)
    ensures var path, tags := Visited(table, addr, stop), RangeTags(table, addr, stop);
            |path| == |tags| && forall i :: 0 <= i < |path| ==> path[i] in table && tags[i] == table[path[i]].tag
    decreases stop - addr
  {
    if addr < stop && addr in table {
      VisitedTags(table, addr + table[addr].count, stop);
    }
  }

  /** Registers on the path lie within the range and do not overlap. */
  lemma {:induction false} VisitedOnPath(table: Table, addr: int, stop: int, i: nat)
    requires Walkable(table) && Covers(table, addr, stop) && i < |Visited(table, addr, stop)|
    ensures var path := Visited(table, addr, stop); var a := path[i];
            && a in table && IntegerRegister(table[a]) && addr <= a && a + table[a].count <= stop
            && forall j :: 0 <= j < |path| && j != i ==>
              path[j] in table && (path[j] + table[path[j]].count <= a || a + table[a].count <= path[j])
    decreases stop - addr
  {
    var next := addr + table[addr].count;
    var path, rest := Visited(table, addr, stop), Visited(table, next, stop);
    assert path == [addr] + rest;
    CoversPast(table, next, stop);
    if i > 0 {
      VisitedOnPath(table, next, stop, i - 1);
      forall j | 0 <= j < |path| && j != i
        ensures path[j] in table
        ensures (path[j] + table[path[j]].count <= path[i] || path[i] + table[path[i]].count <= path[j])
      {
        if j > 0 { assert path[j] == rest[j - 1] && path[i] == rest[i - 1]; }
      }
    } else {
      forall j | 0 < j < |path|
        ensures path[j] in table && next <= path[j]
      {
        VisitedOnPath(table, next, stop, j - 1);
        assert path[j] == rest[j - 1];
      }
    }
  }

  /** A write over integer registers with enough data decodes them all. */
  lemma {:induction false} CoveredWrite(p: Platform, table: Table, frame: seq<byte>, addr: int, stop: int, begin: nat)
    requires Walkable(table) && Covers(table, addr, stop) && begin + 2 * (stop - addr) <= |frame|
    ensures WriteWalk(p, table, frame, addr, stop, begin).end == Complete
    decreases stop - addr
  {
    if addr < stop {
      var r := table[addr];
      CoversPast(table, addr + r.count, stop);
      DecodeInteger(p, r, frame[begin..begin + 2 * r.count]);
      CoveredWrite(p, table, frame, addr + r.count, stop, begin + 2 * r.count);
    }
  }

  /** What a complete read returns for one register on its path is that register's encoded tag value. */
  lemma {:induction false} ReadPart(p: Platform, table: Table, tags: Tags, addr: int, stop: int, data: seq<byte>,
                                    i: nat)
    requires Walkable(table) && Covers(table, addr, stop) && i < |Visited(table, addr, stop)|
    requires |data| == 2 * (stop - addr) && Walk(View(p, table, tags), addr, stop) == Done(data, 2 * (stop - addr))
    ensures var a := Visited(table, addr, stop)[i];
            && a in table && addr <= a && a + table[a].count <= stop
            && Encode(p, table[a], TagValue(tags, table[a].tag))
              == Ok(data[2 * (a - addr)..2 * (a - addr) + 2 * table[a].count])
    decreases stop - addr
  {
    hide Encode, Walk, IntegerRegister;
    FirstCovered(table, addr, stop);
    var cells, r := View(p, table, tags), table[addr];
    var n, next := r.count, addr + r.count;
    CoversPast(table, next, stop);
    EncodedLength(p, r, TagValue(tags, r.tag));
    var rest := FirstRead(cells, addr, next, stop, data);
    if i > 0 {
      ReadPart(p, table, tags, next, stop, rest, i - 1);
      var a := Visited(table, next, stop)[i - 1];
      assert rest[2 * (a - next)..2 * (a - next) + 2 * table[a].count]
        == data[2 * (a - addr)..2 * (a - addr) + 2 * table[a].count];
    }
  }

  lemma FirstCovered(table: Table, addr: int, stop: int)
    requires Walkable(table) && Covers(table, addr, stop) && Visited(table, addr, stop) != []
    ensures addr < stop && addr in table && IntegerRegister(table[addr]) && Initialised(table[addr])
    ensures Covers(table, addr + table[addr].count, stop)
    ensures Visited(table, addr, stop) == [addr] + Visited(table, addr + table[addr].count, stop)
  {
  }

  lemma FirstRead(cells: Cells, addr: int, next: int, stop: int, data: seq<byte>) returns (rest: seq<byte>)
    requires Advancing(cells) && addr in cells && cells[addr].count == next - addr && addr < next <= stop
    requires cells[addr].bytes.Ok? && |cells[addr].bytes.value| == 2 * (next - addr)
    requires |data| == 2 * (stop - addr) && Walk(cells, addr, stop) == Done(data, 2 * (stop - addr))
    ensures Walk(cells, next, stop) == Done(rest, 2 * (stop - next)) && |rest| == 2 * (stop - next)
    ensures rest == data[2 * (next - addr)..] && data[..2 * (next - addr)] == cells[addr].bytes.value
  {
    rest := Walk(cells, next, stop).data;
    assert data == cells[addr].bytes.value + rest;
  }

  function Zeros(n: nat): (data: seq<byte>)
    ensures |data| == n
  {
    seq(n, _ => 0)
  }

  lemma ZeroSlice(frame: seq<byte>, begin: nat, n: nat)
    requires begin + n <= |frame| && forall k :: begin <= k < begin + n ==> frame[k] == 0
    ensures frame[begin..begin + n] == Zeros(n)
  {
  }

  lemma {:induction false} ZeroWord(n: nat)
    ensures FromBigEndian(Zeros(n)) == 0
  {
    if n > 0 {
      assert Zeros(n)[..n - 1] == Zeros(n - 1);
      ZeroWord(n - 1);
    }
  }

  /** Bytes of zero stand for the value zero, whatever the type and scaling. */
  lemma ZeroDecodes(p: Platform, r: Register)
    requires IntegerRegister(r)
    ensures Decode(p, r, Zeros(2 * r.count)) == Ok(0.0) && Encode(p, r, 0.0) == Ok(Zeros(2 * r.count))
  {
    ZeroWord(2 * r.count);
    DecodeInteger(p, r, Zeros(2 * r.count));
    assert GetInt(Signed(r.dataType), Zeros(2 * r.count)) == 0;
    EncodeDecoded(p, r, Zeros(2 * r.count));
  }

  /** The last point of a tag that is mentioned. */
  lemma {:induction false} LastMention(points: seq<Point>, tag: string, j: nat) returns (k: nat)
    requires j < |points| && points[j].tag == tag
    ensures j <= k < |points| && points[k].tag == tag && !Mentions(points[k + 1..], tag)
    decreases |points| - j
  {
    if i :| j < i < |points| && points[i].tag == tag {
      k := LastMention(points, tag, i);
    } else {
      k := j;
      var later := points[j + 1..];
      forall n | 0 <= n < |later|
        ensures later[n].tag != tag
      {
        assert later[n] == points[j + 1 + n];
      }
    }
  }

  /** The registers on the path other than the i-th find only zeros in the lone frame. */
  lemma LoneZeros(p: Platform, table: Table, addr: int, stop: int, i: nat, k: nat)
    requires Walkable(table) && addr <= stop && Covers(table, addr, stop) && i < |Visited(table, addr, stop)|
    requires k < |Visited(table, addr, stop)|
    requires k != i
    ensures var a, b := Visited(table, addr, stop)[i], Visited(table, addr, stop)[k];
            && a in table && b in table && addr < a + table[a].count <= stop
            && Carries(p, table, Lone(addr, stop, a + table[a].count), 5 - 2 * addr, b) == Ok(0.0)
  {
    var path := Visited(table, addr, stop);
    VisitedOnPath(table, addr, stop, i);
    VisitedOnPath(table, addr, stop, k);
    var a, b := path[i], path[k];
    var frame, begin := Lone(addr, stop, a + table[a].count), 5 + 2 * (b - addr);
    assert b + table[b].count <= a || a + table[a].count <= b;
    assert forall k :: begin <= k < begin + 2 * table[b].count ==> frame[k] == 0;
    ZeroSlice(frame, begin, 2 * table[b].count);
    ZeroDecodes(p, table[b]);
  }

  /** After the lone frame is written, the tag of the i-th register holds zero, as a later register has it too. */
  lemma LoneValue(p: Platform, table: Table, addr: int, stop: int, i: nat, j: nat, frame: seq<byte>, tag: string)
    requires Walkable(table) && addr <= stop && Covers(table, addr, stop) && i < j < |Visited(table, addr, stop)|
    requires var path := Visited(table, addr, stop);
             && path[i] in table && path[j] in table && table[path[i]].tag == table[path[j]].tag == tag
             && addr < path[i] + table[path[i]].count <= stop
             && frame == Lone(addr, stop, path[i] + table[path[i]].count)
    ensures TagValue(Store(map[], WriteWalk(p, table, frame, addr, stop, 5).points), tag) == 0.0
  {
    hide WriteWalk, Visited, Covers, Carries, Lone, Store, StoppedAt, Lands;
    var path, w := Visited(table, addr, stop), WriteWalk(p, table, frame, addr, stop, 5);
    CoveredWrite(p, table, frame, addr, stop, 5);
    WriteWalkPoints(p, table, frame, addr, stop, 5);
    assert PointFrom(p, table, frame, 5 - 2 * addr, path[j], w.points[j]);
    var k := LastMention(w.points, tag, j);
    assert PointFrom(p, table, frame, 5 - 2 * addr, path[k], w.points[k]);
    LoneZeros(p, table, addr, stop, i, k);
    StoredValue(map[], w.points, tag);
  }

  /** The one written to the i-th register is gone, as the j-th has the same tag. */
  lemma LoneLost(p: Platform, table: Table, addr: int, stop: int, i: nat, j: nat, frame: seq<byte>)
    requires Walkable(table) && addr <= stop && Covers(table, addr, stop) && i < j < |Visited(table, addr, stop)|
    requires var path := Visited(table, addr, stop);
             && path[i] in table && path[j] in table && table[path[i]].tag == table[path[j]].tag
             && addr < path[i] + table[path[i]].count <= stop
             && frame == Lone(addr, stop, path[i] + table[path[i]].count)
    ensures !Returned(p, table, addr, stop, frame, map[])
  {
    var a := Visited(table, addr, stop)[i];
    var r, tags := table[a], Store(map[], WriteWalk(p, table, frame, addr, stop, 5).points);
    VisitedOnPath(table, addr, stop, i);
    LoneValue(p, table, addr, stop, i, j, frame, r.tag);
    ZeroDecodes(p, r);
    var part, n := 2 * (a - addr), 2 * r.count;
    assert frame[5..][part..part + n] != Zeros(n) by {
      assert frame[5..][part..part + n][n - 1] == frame[4 + part + n] == 1;
      assert Zeros(n)[n - 1] == 0;
    }
    if Returned(p, table, addr, stop, frame, map[]) {
      ReadPart(p, table, tags, addr, stop, frame[5..], i);
    }
  }

  /**
   * A range of integer registers returns whatever is written to it exactly if no two of its registers share a
   * tag: with a shared tag, a one written to the first register and zeros to the others come back as zeros only.
   */
  lemma SharedTagLosesData(p: Platform, table: Table, addr: int, stop: int)
    requires Walkable(table) && addr <= stop && Covers(table, addr, stop)
    ensures ReadsBack(p, table, addr, stop) <==> Distinct(RangeTags(table, addr, stop))
  {
    if Distinct(RangeTags(table, addr, stop)) {
      forall frame: seq<byte>, tags: Tags | |frame| == 5 + 2 * (stop - addr)
        ensures Returned(p, table, addr, stop, frame, tags)
      {
        WriteThenRead(p, table, frame, addr, stop, 5, tags);
        assert frame[5..5 + 2 * (stop - addr)] == frame[5..];
      }
    } else {
      var i, j :| 0 <= i < j < |RangeTags(table, addr, stop)|
          && RangeTags(table, addr, stop)[i] == RangeTags(table, addr, stop)[j];
      VisitedTags(table, addr, stop);
      var a := Visited(table, addr, stop)[i];
      VisitedOnPath(table, addr, stop, i);
      var frame := Lone(addr, stop, a + table[a].count);
      LoneLost(p, table, addr, stop, i, j, frame);
      assert !Returned(p, table, addr, stop, frame, map[]);
    }
  }
}
