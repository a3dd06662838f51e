/**
 * The walk that every register read handler performs: from the first address of the request,
 * one register at a time, each step as wide as the register just read, until the requested
 * count is covered. The Modbus and the SunSpec servers walk different tables the same way.
 */
module RegisterWalk {
  import opened Bytes
  import opened GoRuntime

  datatype Exception = IllegalDataAddress | IllegalDataValue | SlaveDeviceFailure

  /** What a handler answers; Crash is a run-time panic of the handler. */
  datatype Response = Success(data: seq<byte>) | Failure(exception: Exception) | Crash

  /** What a walk sees at an address: the register's width in words and its encoded value. */
  datatype Cell = Cell(count: int, bytes: Result<seq<byte>>)

  type Cells = map<int, Cell>

  datatype Outcome = Done(data: seq<byte>, size: nat) | Stopped(response: Response)

  ghost predicate Advancing(cells: Cells) {
    forall a :: a in cells ==> cells[a].count >= 1
  }

  /** Every value that encodes at all takes two bytes a word. */
  ghost predicate Exact(cells: Cells) {
    forall a :: a in cells && cells[a].bytes.Ok? ==> |cells[a].bytes.value| == 2 * cells[a].count
  }

  ghost function Prepend(d: seq<byte>, size: nat, o: Outcome): Outcome {
    match o
    case Done(data, n) => Done(d + data, size + n)
    case Stopped(_) => o
  }

  lemma PrependTwice(d: seq<byte>, m: nat, e: seq<byte>, n: nat, o: Outcome)
    ensures Prepend(d, m, Prepend(e, n, o)) == Prepend(d + e, m + n, o)
  {
    if o.Done? {
      assert d + (e + o.data) == (d + e) + o.data;
    }
  }

  ghost function Walk(cells: Cells, addr: int, stop: int): Outcome
    requires Advancing(cells)
    decreases stop - addr
  {
    if addr >= stop then Done([], 0)
    else if addr !in cells then Stopped(Failure(IllegalDataAddress))
    else match cells[addr].bytes
      case Ok(d) => Prepend(d, 2 * cells[addr].count, Walk(cells, addr + cells[addr].count, stop))
      case Err => Stopped(Failure(SlaveDeviceFailure))
      case Panic => Stopped(Crash)
  }

  /** A readable register extends what was read so far and moves the walk past it. */
  lemma WalkOn(cells: Cells, d: seq<byte>, size: nat, addr: int, stop: int)
    requires Advancing(cells) && addr < stop && addr in cells && cells[addr].bytes.Ok?
    ensures var c := cells[addr];
            Prepend(d, size, Walk(cells, addr, stop))
            == Prepend(d + c.bytes.value, size + 2 * c.count, Walk(cells, addr + c.count, stop))
  {
    PrependTwice(d, size, cells[addr].bytes.value, 2 * cells[addr].count, Walk(cells, addr + cells[addr].count, stop));
  }

  /** The first two fields of a request frame: start address and count (section 6.3). */
  function Field(frame: seq<byte>, i: nat): nat
    requires 2 * i + 2 <= |frame|
  {
    FromBigEndian(frame[2 * i..2 * i + 2])
  }

  ghost function ReadResponse(cells: Cells, frame: seq<byte>): Response
    requires Advancing(cells)
  {
    if |frame| < 4 then Crash
    else match Walk(cells, Field(frame, 0), Field(frame, 0) + Field(frame, 1))
      case Done(data, size) => Success([size % 256] + data)
      case Stopped(r) => r
  }

  /** The fields of a read request. */
  lemma RequestFields(start: nat, count: nat)
    requires start < 0x1_0000 && count < 0x1_0000
    ensures var frame := U16(start) + U16(count); |frame| == 4 && Field(frame, 0) == start && Field(frame, 1) == count
  {
    U16RoundTrip(start);
    U16RoundTrip(count);
    var frame := U16(start) + U16(count);
    assert frame[0..2] == U16(start) && frame[2..4] == U16(count);
  }

  // ---- where a walk goes ----

  /** The addresses a walk looks up, in order; the last may be missing from the table. */
  ghost function Path(cells: Cells, addr: int, stop: int): seq<int>
    requires Advancing(cells)
    decreases stop - addr
  {
    if addr >= stop then []
    else if addr !in cells then [addr]
    else [addr] + Path(cells, addr + cells[addr].count, stop)
  }

  /** The walk lands exactly on stop. */
  ghost predicate Aligned(cells: Cells, addr: int, stop: int)
    requires Advancing(cells)
    decreases stop - addr
  {
    addr == stop || (addr < stop && addr in cells && Aligned(cells, addr + cells[addr].count, stop))
  }

  ghost predicate Readable(cells: Cells, a: int) {
    a in cells && cells[a].bytes.Ok?
  }

  ghost function Verdict(cells: Cells, a: int): Response
    requires !Readable(cells, a)
  {
    if a !in cells then Failure(IllegalDataAddress)
    else if cells[a].bytes.Err? then Failure(SlaveDeviceFailure)
    else Crash
  }

  ghost predicate AllReadable(cells: Cells, path: seq<int>) {
    forall i :: 0 <= i < |path| ==> Readable(cells, path[i])
  }

  ghost function Concatenated(cells: Cells, path: seq<int>): seq<byte>
    requires AllReadable(cells, path)
  {
    if path == [] then [] else cells[path[0]].bytes.value + Concatenated(cells, path[1..])
  }

  /** The i-th address is the first on the path that cannot be read. */
  ghost predicate RefusedAt(cells: Cells, path: seq<int>, i: int) {
    && 0 <= i < |path| && !Readable(cells, path[i])
    && forall j :: 0 <= j < i ==> Readable(cells, path[j])
  }

  /** A read succeeds iff everything on its path is readable, and is refused for the first thing that is not. */
  lemma {:induction false} WalkVerdict(cells: Cells, addr: int, stop: int)
    requires Advancing(cells)
    ensures var path := Path(cells, addr, stop); var w := Walk(cells, addr, stop);
            && (w.Done? <==> AllReadable(cells, path))
            && (w.Done? ==> w.data == Concatenated(cells, path))
            && (w.Stopped? ==> exists i :: RefusedAt(cells, path, i) && w.response == Verdict(cells, path[i]))
    decreases stop - addr
  {
    var path := Path(cells, addr, stop);
    if addr < stop {
      assert path[0] == addr;
      if Readable(cells, addr) {
        var rest := Path(cells, addr + cells[addr].count, stop);
        assert path == [addr] + rest && path[1..] == rest;
        WalkVerdict(cells, addr + cells[addr].count, stop);
        var w := Walk(cells, addr + cells[addr].count, stop);
        if w.Stopped? {
          var i :| RefusedAt(cells, rest, i) && w.response == Verdict(cells, rest[i]);
          assert RefusedAt(cells, path, i + 1) && path[i + 1] == rest[i];
        }
      } else {
        assert RefusedAt(cells, path, 0);
      }
    }
  }

  // ---- how much a walk delivers ----

  /** Reading a range is reading its two halves, whenever the first half ends on a register boundary. */
  lemma {:induction false} WalkSplit(cells: Cells, addr: int, mid: int, stop: int)
    requires Advancing(cells)
    requires Aligned(cells, addr, mid) && mid <= stop
    ensures Walk(cells, addr, stop)
         == match Walk(cells, addr, mid)
            case Done(d, n) => Prepend(d, n, Walk(cells, mid, stop))
            case Stopped(r) => Stopped(r)
    decreases mid - addr
  {
    if addr == mid {
      PrependNothing(Walk(cells, mid, stop));
    } else {
      var c := cells[addr];
      var next := addr + c.count;
      WalkSplit(cells, next, mid, stop);
      AlignedPast(cells, next, mid);
      var first := Walk(cells, next, mid);
      if c.bytes.Ok? && first.Done? {
        PrependTwice(c.bytes.value, 2 * c.count, first.data, first.size, Walk(cells, mid, stop));
      }
    }
  }

  lemma PrependNothing(o: Outcome)
    ensures Prepend([], 0, o) == o
  {
    if o.Done? {
      assert [] + o.data == o.data;
    }
  }

  lemma {:induction false} AlignedPast(cells: Cells, addr: int, stop: int)
    requires Advancing(cells) && Aligned(cells, addr, stop)
    ensures addr <= stop
  {
  }

  /**
   * A successful read delivers at least what was asked, at most one register minus one word more, and exactly that iff
   * it ends on a boundary.
   */
  lemma {:induction false} WalkSize(cells: Cells, addr: int, stop: int, widest: nat)
    requires Advancing(cells) && Exact(cells) && addr <= stop
    requires forall a :: a in cells ==> cells[a].count <= widest
    requires Walk(cells, addr, stop).Done?
    ensures var w := Walk(cells, addr, stop);
            && w.size == |w.data|
            && 2 * (stop - addr) <= |w.data|
            && (addr < stop ==> |w.data| <= 2 * (stop - addr) + 2 * (widest - 1))
            && (|w.data| == 2 * (stop - addr) <==> Aligned(cells, addr, stop))
    decreases stop - addr
  {
    if addr < stop {
      var next := addr + cells[addr].count;
      if next <= stop {
        WalkSize(cells, next, stop, widest);
      } else {
        assert Walk(cells, next, stop) == Done([], 0);
      }
    }
  }

  lemma SucceedsReadable(cells: Cells, frame: seq<byte>)
    requires Advancing(cells) && |frame| >= 4 && ReadResponse(cells, frame).Success?
    ensures AllReadable(cells, Path(cells, Field(frame, 0), Field(frame, 0) + Field(frame, 1)))
  {
    WalkVerdict(cells, Field(frame, 0), Field(frame, 0) + Field(frame, 1));
  }

  /** Where a walk ends: past the last register it reads, or at the first address that is missing. */
  ghost function Landing(cells: Cells, addr: int, stop: int): int
    requires Advancing(cells)
    decreases stop - addr
  {
    if addr >= stop || addr !in cells then addr else Landing(cells, addr + cells[addr].count, stop)
  }

  /** A successful read delivers all the words from its start to where it lands. */
  lemma {:induction false} LandingSize(cells: Cells, addr: int, stop: int)
    requires Advancing(cells) && Exact(cells) && Walk(cells, addr, stop).Done?
    ensures var w := Walk(cells, addr, stop); w.size == |w.data| == 2 * (Landing(cells, addr, stop) - addr)
    decreases stop - addr
  {
    if addr < stop {
      LandingSize(cells, addr + cells[addr].count, stop);
    }
  }

  /** It lands behind the register on its path that reaches the end of the range, and there is one. */
  lemma {:induction false} LandsBehind(cells: Cells, addr: int, stop: int) returns (last: int)
    requires Advancing(cells) && addr < stop && AllReadable(cells, Path(cells, addr, stop))
    ensures last in Path(cells, addr, stop) && Readable(cells, last)
    ensures addr <= last < stop <= last + cells[last].count == Landing(cells, addr, stop)
    decreases stop - addr
  {
    var path := Path(cells, addr, stop);
    assert path[0] == addr && Readable(cells, path[0]);
    var next := addr + cells[addr].count;
    assert path == [addr] + Path(cells, next, stop);
    if next >= stop {
      last := addr;
    } else {
      var rest := Path(cells, next, stop);
      forall i | 0 <= i < |rest|
        ensures Readable(cells, rest[i])
      {
        assert rest[i] == path[i + 1];
      }
      last := LandsBehind(cells, next, stop);
    }
  }

  lemma {:induction false} ReachesEnd(cells: Cells, addr: int, stop: int, a: int)
    requires Advancing(cells) && a in Path(cells, addr, stop) && a in cells && a + cells[a].count >= stop
    ensures Landing(cells, addr, stop) == a + cells[a].count
    decreases stop - addr
  {
    if a != addr {
      ReachesEnd(cells, addr + cells[addr].count, stop, a);
    }
  }

  /**
   * The one-byte length of a successful answer counts its payload iff the walk lands at most 127 words past its
   * start. The payload is at least what was asked for, and at most one register minus one word more.
   */
  lemma LengthByte(cells: Cells, frame: seq<byte>, widest: nat)
    requires Advancing(cells) && Exact(cells) && |frame| >= 4
    requires forall a :: a in cells ==> cells[a].count <= widest
    requires ReadResponse(cells, frame).Success?
    ensures var count := Field(frame, 1); var r := ReadResponse(cells, frame);
            && |r.data| >= 1 + 2 * count
            && (count > 0 ==> |r.data| <= 1 + 2 * count + 2 * (widest - 1))
            && |r.data| == 1 + 2 * (Landing(cells, Field(frame, 0), Field(frame, 0) + count) - Field(frame, 0))
            && (r.data[0] == |r.data| - 1
              <==> Landing(cells, Field(frame, 0), Field(frame, 0) + count) - Field(frame, 0) <= 127)
  {
    var start, stop := Field(frame, 0), Field(frame, 0) + Field(frame, 1);
    WalkVerdict(cells, start, stop);
    LandingSize(cells, start, stop);
    WalkSize(cells, start, stop, widest);
  }

  /**
   * The answer to a read, on every path: a frame of less than two fields takes the handler down; otherwise all the
   * bytes on the path behind their length, or the reason that the first register without any gives.
   */
  lemma ReadAnswered(cells: Cells, frame: seq<byte>)
    requires Advancing(cells) && Exact(cells)
    ensures |frame| < 4 ==> ReadResponse(cells, frame) == Crash
    ensures |frame| >= 4 ==>
              var start, stop := Field(frame, 0), Field(frame, 0) + Field(frame, 1);
              var path, r := Path(cells, start, stop), ReadResponse(cells, frame);
              && (AllReadable(cells, path) ==>
                    var data := Concatenated(cells, path);
                    |data| == 2 * (Landing(cells, start, stop) - start) && r == Success([|data| % 256] + data))
              && (!AllReadable(cells, path) ==> exists i :: RefusedAt(cells, path, i) && r == Verdict(cells, path[i]))
  {
    if |frame| >= 4 {
      var start, stop := Field(frame, 0), Field(frame, 0) + Field(frame, 1);
      WalkVerdict(cells, start, stop);
      if Walk(cells, start, stop).Done? {
        LandingSize(cells, start, stop);
      }
    }
  }

  /** Single words up to an address, and one register of some words there. */
  ghost predicate Tail(cells: Cells, addr: int, last: int, words: nat) {
    forall a :: addr <= a <= last ==>
      a in cells && cells[a].bytes.Ok? && cells[a].count == if a < last then 1 else words
  }

  /** A read that ends on the first word of a long register delivers all of it. */
  lemma {:induction false} TailWalk(cells: Cells, addr: int, last: int, words: nat)
    requires Advancing(cells) && Exact(cells) && addr <= last && Tail(cells, addr, last, words)
    ensures var w := Walk(cells, addr, last + 1); w.Done? && |w.data| == w.size == 2 * (last - addr) + 2 * words
    decreases last - addr
  {
    if addr < last {
      TailWalk(cells, addr + 1, last, words);
    } else {
      assert Walk(cells, last + words, last + 1) == Done([], 0);
    }
  }
}
